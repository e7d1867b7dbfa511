/** The WaitForControlledPodsRunning measurement: the single worker's event handler and `gather`.

    An object is known by what the handler reads of it: its key, its resource version and its
    spec, each of which may be unreadable.
 */
module ControlledPodsWait {
  import opened Options
  import opened CheckerMaps
  import opened Sets

  datatype Object = Object(key: Option<string>, version: Option<nat>, spec: Option<string>)

  /** An informer event. `creatable` says whether building a checker for it succeeds: the replica
      count, the pod predicate and the pod store may each fail to be had. */
  datatype Event = Event(oldObj: Option<Object>, newObj: Option<Object>, creatable: bool)

  datatype Comparison = Unreadable | Same | Different

  function CompareSpecs(a: Option<Object>, b: Option<Object>): Comparison {
    if (a.Some? && a.value.spec.None?) || (b.Some? && b.value.spec.None?) then Unreadable
    else if a.None? && b.None? then Same
    else if a.Some? && b.Some? && a.value.spec == b.value.spec then Same
    else Different
  }

  /** The specs cannot be compared when one there is cannot be read; two missing objects or two equal
      specs are the same; anything else is a change. */
  lemma ComparisonMeans(a: Option<Object>, b: Option<Object>)
    ensures CompareSpecs(a, b) == Unreadable <==> (a.Some? && a.value.spec == None) || (b.Some? && b.value.spec == None)
    ensures CompareSpecs(a, b) == Same <==>
      || (a == None && b == None)
      || (a.Some? && b.Some? && a.value.spec.Some? && a.value.spec == b.value.spec)
  {
  }

  // ---------- the handler on values ----------

  /** The keys and the version that `gather` waits for. */
  datatype Cache = Cache(keys: set<string>, version: nat)

  datatype State = State(isRunning: bool, cache: Cache, registry: Registry)

  function Later(version: nat, o: Object): nat {
    if o.version.Some? && o.version.value > version then o.version.value else version
  }

  function KeySet(o: Option<Object>): set<string> {
    if o.Some? && o.value.key.Some? then {o.value.key.value} else {}
  }

  function CacheUpdated(c: Cache, e: Event): Cache {
    var version := if e.oldObj.Some? then Later(c.version, e.oldObj.value) else c.version;
    Cache(c.keys - KeySet(e.oldObj) + KeySet(e.newObj),
          if e.newObj.Some? then Later(version, e.newObj.value) else version)
  }

  /** The object an event's checker is about: the new one, or the old one of a deletion. */
  function Handled(e: Event): Option<Object> {
    if e.newObj.Some? then e.newObj else e.oldObj
  }

  ghost function OldCheckerRemoved(r: Registry, e: Event): (r': Registry)
    requires WellFormed(r)
    ensures WellFormed(r')
  {
    if e.oldObj.Some? && e.oldObj.value.key.Some? then Removed(r, e.oldObj.value.key.value) else r
  }

  ghost function CheckerAdded(r: Registry, e: Event): (r': Registry)
    requires WellFormed(r) && CompareSpecs(e.oldObj, e.newObj) == Different
    ensures WellFormed(r')
  {
    var o := Handled(e).value;
    if o.key.Some? && e.creatable then Added(r, o.key.value, o.spec.value, e.newObj.None?) else r
  }

  ghost function RegistryUpdated(r: Registry, e: Event): (r': Registry)
    requires WellFormed(r)
    ensures WellFormed(r')
  {
    if CompareSpecs(e.oldObj, e.newObj) == Different then CheckerAdded(OldCheckerRemoved(r, e), e) else r
  }

  ghost function HandledState(s: State, e: Event): (s': State)
    requires WellFormed(s.registry)
    ensures WellFormed(s'.registry)
  {
    State(s.isRunning, CacheUpdated(s.cache, e), if s.isRunning then RegistryUpdated(s.registry, e) else s.registry)
  }

  // ---------- runs ----------

  /** How a checker's wait ends. */
  datatype Outcome = StartFailed | WaitSucceeded | WaitFailed(timedOut: bool)

  function StatusAfter(c: CheckerState, outcome: Outcome): Status {
    match outcome
    case StartFailed => c.status
    case WaitSucceeded => if c.isDeleted then Deleted else Running
    case WaitFailed(timedOut) =>
      if !timedOut then Failed else if c.isDeleted then DeleteTimeout else Timeout
  }

  /** One step of a run: the worker handles an event, or some checker's wait ends. */
  datatype Step = Handle(event: Event) | Finish(id: nat, outcome: Outcome)

  ghost function Finished(r: Registry, id: nat, outcome: Outcome): (r': Registry)
    requires WellFormed(r)
    ensures WellFormed(r')
  {
    if id < |r.checkers| then
      r.(checkers := r.checkers[id := r.checkers[id].(status := StatusAfter(r.checkers[id], outcome))])
    else
      r
  }

  ghost function Stepped(s: State, step: Step): (s': State)
    requires WellFormed(s.registry)
    ensures WellFormed(s'.registry)
  {
    match step
    case Handle(e) => HandledState(s, e)
    case Finish(id, outcome) => s.(registry := Finished(s.registry, id, outcome))
  }

  ghost const STARTED := State(true, Cache({}, 0), Registry(map[], []))

  ghost function Run(steps: seq<Step>): (s: State)
    ensures WellFormed(s.registry)
  {
    if steps == [] then STARTED else Stepped(Run(steps[..|steps| - 1]), steps[|steps| - 1])
  }

  // ---------- what every step keeps ----------

  /** A deletion's object and an update's two objects are those of one key, and the spec of a
      deleted object can be read. */
  predicate Orderly(e: Event) {
    && (e.oldObj.Some? && e.newObj.Some? ==> e.oldObj.value.key == e.newObj.value.key)
    && (e.oldObj.Some? && e.newObj.None? ==> e.oldObj.value.spec.Some?)
  }

  ghost predicate OrderlySteps(steps: seq<Step>) {
    forall i :: 0 <= i < |steps| && steps[i].Handle? ==> Orderly(steps[i].event)
  }

  /** A checker that does not await a deletion is registered only for a key that exists. */
  ghost predicate Tracked(s: State)
    requires WellFormed(s.registry)
  {
    s.isRunning &&
    forall k :: k in s.registry.entries && !s.registry.checkers[s.registry.entries[k]].isDeleted ==>
      k in s.cache.keys
  }

  /** A checker's status suits its object: running or timed out for an existing one, deleted or timed
      out on deletion for a deleted one. */
  ghost predicate StatusesSound(r: Registry) {
    forall i :: 0 <= i < |r.checkers| ==> StatusSuits(r.checkers[i])
  }

  predicate StatusSuits(c: CheckerState) {
    && (c.status == Running || c.status == Timeout ==> !c.isDeleted)
    && (c.status == Deleted || c.status == DeleteTimeout ==> c.isDeleted)
  }

  lemma HandleKeepsOwned(r: Registry, e: Event)
    requires Owned(r)
    ensures Owned(RegistryUpdated(r, e))
  {
    if CompareSpecs(e.oldObj, e.newObj) == Different {
      var o := Handled(e).value;
      if e.oldObj.Some? && e.oldObj.value.key.Some? {
        RemovedKeepsOwned(r, e.oldObj.value.key.value);
      }
      if o.key.Some? {
        AddedKeepsOwned(OldCheckerRemoved(r, e), o.key.value, o.spec.value, e.newObj.None?);
      }
    }
  }

  /** Checker ownership over whole runs, whatever the events and however waits end. */
  lemma {:induction false} RunOwnsCheckers(steps: seq<Step>)
    ensures Owned(Run(steps).registry)
  {
    if steps == [] {
    } else {
      var before, last := steps[..|steps| - 1], steps[|steps| - 1];
      RunOwnsCheckers(before);
      if last.Handle? {
        HandleKeepsOwned(Run(before).registry, last.event);
      }
    }
  }

  lemma HandleKeepsStatusesSound(r: Registry, e: Event)
    requires WellFormed(r) && StatusesSound(r)
    ensures StatusesSound(RegistryUpdated(r, e))
  {
    assert StatusesSound(OldCheckerRemoved(r, e));
  }

  lemma {:induction false} RunStatusesSound(steps: seq<Step>)
    ensures StatusesSound(Run(steps).registry)
  {
    if steps == [] {
    } else {
      var before, last := steps[..|steps| - 1], steps[|steps| - 1];
      RunStatusesSound(before);
      if last.Handle? {
        HandleKeepsStatusesSound(Run(before).registry, last.event);
      }
    }
  }

  /** A deletion whose spec cannot be read, of an object whose pods are awaited: the key is
      forgotten but its checker is left in place. */
  ghost predicate LeavesChecker(s: State, e: Event)
    requires WellFormed(s.registry)
  {
    && e.oldObj.Some? && e.newObj.None? && e.oldObj.value.spec.None? && e.oldObj.value.key.Some?
    && var k := e.oldObj.value.key.value;
       k in s.registry.entries && !s.registry.checkers[s.registry.entries[k]].isDeleted
  }

  lemma HandleKeepsTrackedIff(s: State, e: Event)
    requires WellFormed(s.registry) && Tracked(s)
    requires e.oldObj.Some? && e.newObj.Some? ==> e.oldObj.value.key == e.newObj.value.key
    ensures Tracked(HandledState(s, e)) <==> !LeavesChecker(s, e)
  {
    if LeavesChecker(s, e) {
      LeftCheckerUntracked(s, e);
    } else {
      HandleKeepsTracked(s, e);
    }
  }

  lemma LeftCheckerUntracked(s: State, e: Event)
    requires WellFormed(s.registry) && Tracked(s) && LeavesChecker(s, e)
    ensures !Tracked(HandledState(s, e))
  {
    var k := e.oldObj.value.key.value;
    assert k !in HandledState(s, e).cache.keys;
  }

  lemma HandleKeepsTracked(s: State, e: Event)
    requires WellFormed(s.registry) && Tracked(s) && !LeavesChecker(s, e)
    requires e.oldObj.Some? && e.newObj.Some? ==> e.oldObj.value.key == e.newObj.value.key
    ensures Tracked(HandledState(s, e))
  {
  }

  lemma {:induction false} RunTracksKeys(steps: seq<Step>)
    requires OrderlySteps(steps)
    ensures Tracked(Run(steps))
  {
    if steps == [] {
    } else {
      var before, last := steps[..|steps| - 1], steps[|steps| - 1];
      RunTracksKeys(before);
      if last.Handle? {
        HandleKeepsTrackedIff(Run(before), last.event);
      }
    }
  }

  // ---------- what a checker's status tells ----------

  /** Step `i` ends the wait of checker `id`, which exists by then, with more than a failed start. */
  ghost predicate Decides(steps: seq<Step>, i: nat, id: nat) {
    && i < |steps| && steps[i].Finish? && steps[i].id == id && steps[i].outcome != StartFailed
    && id < |Run(steps[..i]).registry.checkers|
  }

  ghost predicate Undecided(steps: seq<Step>, id: nat, from: nat) {
    forall i :: from <= i < |steps| ==> !Decides(steps, i, id)
  }

  lemma DecidesExtended(steps: seq<Step>, last: Step, i: nat, id: nat)
    requires i < |steps|
    ensures Decides(steps + [last], i, id) <==> Decides(steps, i, id)
  {
    assert (steps + [last])[..i] == steps[..i];
  }

  /** Handling an event adds at most new, undecided checkers, and changes no status. */
  lemma HandleKeepsStatuses(r: Registry, e: Event, id: nat)
    requires WellFormed(r)
    ensures |r.checkers| <= |RegistryUpdated(r, e).checkers|
    ensures id < |RegistryUpdated(r, e).checkers| ==>
      var c := RegistryUpdated(r, e).checkers[id];
      if id < |r.checkers| then c.status == r.checkers[id].status && c.isDeleted == r.checkers[id].isDeleted
      else c.status == Unknown
  {
    if CompareSpecs(e.oldObj, e.newObj) == Different {
      var r', o := OldCheckerRemoved(r, e), Handled(e).value;
      RemovedKeepsStatuses(r, e, id);
      if o.key.Some? {
        AddedKeepsStatuses(r', o.key.value, o.spec.value, e.newObj.None?, id);
      }
    }
  }

  lemma RemovedKeepsStatuses(r: Registry, e: Event, id: nat)
    requires WellFormed(r)
    ensures |OldCheckerRemoved(r, e).checkers| == |r.checkers|
    ensures id < |r.checkers| ==>
      var c := OldCheckerRemoved(r, e).checkers[id];
      c.status == r.checkers[id].status && c.isDeleted == r.checkers[id].isDeleted
  {
  }

  lemma AddedKeepsStatuses(r: Registry, key: string, spec: string, isDeleted: bool, id: nat)
    requires WellFormed(r)
    ensures |Added(r, key, spec, isDeleted).checkers| == |r.checkers| + 1
    ensures id <= |r.checkers| ==>
      var c := Added(r, key, spec, isDeleted).checkers[id];
      if id < |r.checkers| then c.status == r.checkers[id].status && c.isDeleted == r.checkers[id].isDeleted
      else c.status == Unknown
  {
  }

  lemma {:induction false} CheckersGrow(steps: seq<Step>, i: nat)
    requires i <= |steps|
    ensures |Run(steps[..i]).registry.checkers| <= |Run(steps).registry.checkers|
  {
    if i == |steps| {
      assert steps[..i] == steps;
    } else {
      var n := |steps| - 1;
      CheckersGrow(steps[..n], i);
      assert steps[..n][..i] == steps[..i];
      if steps[n].Handle? {
        HandleKeepsStatuses(Run(steps[..n]).registry, steps[n].event, 0);
      }
    }
  }

  /** Over every run: a checker's status tells how its wait ended last, and is unknown exactly when
      it has not ended. */
  lemma {:induction false} StatusTellsEnding(steps: seq<Step>, id: nat) returns (i: nat)
    requires id < |Run(steps).registry.checkers|
    ensures
      var c := Run(steps).registry.checkers[id];
      && (c.status == Unknown <==> Undecided(steps, id, 0))
      && (c.status != Unknown ==> Decides(steps, i, id) && Undecided(steps, id, i + 1) && Ended(c, steps[i].outcome))
  {
    var n := |steps| - 1;
    var before, last := steps[..n], steps[n];
    var r := Run(before).registry;
    i := 0;
    assert steps == before + [last] && steps[..n] == before;
    StepTells(Run(before), last, id);
    if id < |r.checkers| {
      i := StatusTellsEnding(before, id);
      if Decides(steps, n, id) {
        i := n;
      } else {
        StillEnded(before, last, id, i);
      }
    } else {
      NotYetThere(steps, id);
    }
  }

  lemma StepTells(s: State, step: Step, id: nat)
    requires WellFormed(s.registry) && id < |Stepped(s, step).registry.checkers|
    ensures
      var checkers, c := s.registry.checkers, Stepped(s, step).registry.checkers[id];
      if id >= |checkers| then c.status == Unknown
      else if step.Finish? && step.id == id && step.outcome != StartFailed then c.status != Unknown && Ended(c, step.outcome)
      else c.status == checkers[id].status && c.isDeleted == checkers[id].isDeleted
  {
    if step.Handle? {
      HandleKeepsStatuses(s.registry, step.event, id);
    }
  }

  lemma StillEnded(before: seq<Step>, last: Step, id: nat, i: nat)
    requires !Decides(before + [last], |before|, id)
    ensures Undecided(before + [last], id, 0) <==> Undecided(before, id, 0)
    ensures Decides(before, i, id) && Undecided(before, id, i + 1) ==>
      Decides(before + [last], i, id) && Undecided(before + [last], id, i + 1)
  {
    forall j | 0 <= j < |before| ensures Decides(before + [last], j, id) <==> Decides(before, j, id) {
      DecidesExtended(before, last, j, id);
    }
  }

  lemma NotYetThere(steps: seq<Step>, id: nat)
    requires steps != [] && |Run(steps[..|steps| - 1]).registry.checkers| <= id
    ensures Undecided(steps, id, 0)
  {
    var before := steps[..|steps| - 1];
    forall i | 0 <= i < |steps| ensures !Decides(steps, i, id) {
      CheckersGrow(before, i);
      assert before[..i] == steps[..i];
    }
  }

  /** How a wait ended, told from the status: well, for an existing or a deleted object, or badly, in
      time or not. */
  ghost predicate Ended(c: CheckerState, outcome: Outcome) {
    && (c.status == Running <==> outcome == WaitSucceeded && !c.isDeleted)
    && (c.status == Deleted <==> outcome == WaitSucceeded && c.isDeleted)
    && (c.status == Failed <==> outcome == WaitFailed(false))
    && (c.status == Timeout <==> outcome == WaitFailed(true) && !c.isDeleted)
    && (c.status == DeleteTimeout <==> outcome == WaitFailed(true) && c.isDeleted)
  }

  // ---------- gathering ----------

  /** A listed object that `gather` takes into account. */
  predicate Readable(o: Object) {
    o.key.Some? && o.version.Some?
  }

  function ListedKeys(listing: seq<Object>): set<string> {
    set i | 0 <= i < |listing| && Readable(listing[i]) :: listing[i].key.value
  }

  ghost predicate IsNewestListed(listing: seq<Object>, version: nat) {
    && (forall i :: 0 <= i < |listing| && Readable(listing[i]) ==> listing[i].version.value <= version)
    && (version > 0 ==> exists i :: 0 <= i < |listing| && Readable(listing[i]) && listing[i].version.value == version)
  }

  datatype GatherResult =
    | Success
    | NotStarted
    | SyncTimeout
    | UnknownStatus
    | TimedOut(count: nat)
    | IncorrectNumber(running: nat, expected: nat)
    | FailedStatuses(count: nat)

  /** All events up to the listing's newest version are handled and the keys agree with it. */
  predicate BarrierPassed(c: Cache, keys: set<string>, version: nat) {
    c.version >= version && keys == c.keys
  }

  /** The status of every registered checker, by key. */
  ghost function Statuses(r: Registry): map<string, Status>
    requires WellFormed(r)
  {
    map k | k in r.entries :: r.checkers[r.entries[k]].status
  }

  ghost function With(statuses: map<string, Status>, status: Status): set<string> {
    set k | k in statuses && statuses[k] == status
  }

  /** The verdict on the tallied checkers. */
  function Verdict(running: nat, timedOut: nat, failed: nat, expected: nat): GatherResult {
    if timedOut > 0 then TimedOut(timedOut)
    else if expected != running then IncorrectNumber(running, expected)
    else if failed > 0 then FailedStatuses(failed)
    else Success
  }

  ghost function Tallied(statuses: map<string, Status>, expected: nat): GatherResult {
    if With(statuses, Unknown) != {} then UnknownStatus
    else Verdict(|With(statuses, Running)|, |With(statuses, Timeout)| + |With(statuses, DeleteTimeout)|,
                 |With(statuses, Failed)|, expected)
  }

  ghost function Gathered(s: State, keys: set<string>, version: nat): GatherResult
    requires WellFormed(s.registry)
  {
    if !s.isRunning then NotStarted
    else if !BarrierPassed(s.cache, keys, version) then SyncTimeout
    else Tallied(Statuses(s.registry), |keys|)
  }

  /** Every checker has ended well, and every listed object has a checker that saw its pods running. */
  ghost predicate AllRunning(statuses: map<string, Status>, keys: set<string>) {
    && (forall k :: k in statuses ==> statuses[k] == Running || statuses[k] == Deleted)
    && (forall k :: k in keys ==> k in statuses && statuses[k] == Running)
  }

  lemma RunningKeysTracked(s: State)
    requires WellFormed(s.registry) && Tracked(s) && StatusesSound(s.registry)
    ensures With(Statuses(s.registry), Running) <= s.cache.keys
  {
  }

  lemma NoneWith(statuses: map<string, Status>, status: Status)
    ensures |With(statuses, status)| == 0 <==> forall k :: k in statuses ==> statuses[k] != status
  {
    if k :| k in statuses && statuses[k] == status {
      assert k in With(statuses, status);
    }
  }

  /** Counting the running checkers is enough when none runs outside the expected keys. */
  lemma TallySucceedsIff(statuses: map<string, Status>, keys: set<string>)
    requires With(statuses, Running) <= keys
    ensures Tallied(statuses, |keys|) == Success <==> AllRunning(statuses, keys)
  {
    NoneWith(statuses, Unknown);
    NoneWith(statuses, Timeout);
    NoneWith(statuses, DeleteTimeout);
    NoneWith(statuses, Failed);
    var running := With(statuses, Running);
    if |running| == |keys| {
      SameSizeSubset(running, keys);
    }
    if forall k :: k in keys ==> k in statuses && statuses[k] == Running {
      assert running == keys;
    }
  }

  /** What each verdict says of the statuses, in the order in which they are looked for. */
  lemma TallyMeans(statuses: map<string, Status>, expected: nat)
    ensures
      var result := Tallied(statuses, expected);
      var unknown, running, failed := |With(statuses, Unknown)|, |With(statuses, Running)|, |With(statuses, Failed)|;
      var late := |With(statuses, Timeout)| + |With(statuses, DeleteTimeout)|;
      && (result == UnknownStatus <==> unknown > 0)
      && (result.TimedOut? <==> unknown == 0 && late > 0)
      && (result.IncorrectNumber? <==> unknown == 0 && late == 0 && running != expected)
      && (result.FailedStatuses? <==> unknown == 0 && late == 0 && running == expected && failed > 0)
      && (result == Success <==> unknown == 0 && late == 0 && running == expected && failed == 0)
      && (result.TimedOut? ==> result.count == late)
      && (result.IncorrectNumber? ==> result.running == running && result.expected == expected)
      && (result.FailedStatuses? ==> result.count == failed)
  {
    if With(statuses, Unknown) != {} {
      assert |With(statuses, Unknown)| > 0;
    }
  }

  /** No false success, and no false alarm: `gather` succeeds exactly when the barrier has passed,
      every checker has ended well and every listed key has a running checker. It counts, but the
      count cannot be made up by anything else, even where checkers could not be created. */
  lemma GatherSucceedsIff(steps: seq<Step>, keys: set<string>, version: nat)
    requires OrderlySteps(steps)
    ensures Gathered(Run(steps), keys, version) == Success
       <==> BarrierPassed(Run(steps).cache, keys, version) && AllRunning(Statuses(Run(steps).registry), keys)
  {
    RunTracksKeys(steps);
    RunStatusesSound(steps);
    RunningKeysTracked(Run(steps));
    if BarrierPassed(Run(steps).cache, keys, version) {
      TallySucceedsIff(Statuses(Run(steps).registry), keys);
    }
  }

  /** Over any run, orderly or not: a success is a true one exactly when no checker of an unlisted
      key is counted as running. */
  lemma SuccessIsTrueIff(steps: seq<Step>, keys: set<string>, version: nat)
    requires Gathered(Run(steps), keys, version) == Success
    ensures
      var statuses := Statuses(Run(steps).registry);
      AllRunning(statuses, keys) <==> With(statuses, Running) <= keys
  {
    var statuses := Statuses(Run(steps).registry);
    var running := With(statuses, Running);
    if running <= keys {
      TallySucceedsIff(statuses, keys);
    }
    if AllRunning(statuses, keys) {
      assert keys <= running;
      SameSizeSubset(keys, running);
    }
  }

  // ---------- polling ----------

  /** What `gather` returns when the keys and version were `polls` at its polls, up to its timeout,
      and `s` is the state once all waits are over. */
  ghost function GatheredOver(polls: seq<Cache>, s: State, keys: set<string>, version: nat): GatherResult
    requires WellFormed(s.registry)
  {
    if !s.isRunning then NotStarted
    else if forall i :: 0 <= i < |polls| ==> !BarrierPassed(polls[i], keys, version) then SyncTimeout
    else Tallied(Statuses(s.registry), |keys|)
  }

  ghost predicate OnlyFinishes(steps: seq<Step>) {
    forall i :: 0 <= i < |steps| ==> steps[i].Finish?
  }

  lemma {:induction false} FinishesKeepCache(steps: seq<Step>, rest: seq<Step>)
    requires OnlyFinishes(rest)
    ensures Run(steps + rest).cache == Run(steps).cache && Run(steps + rest).isRunning == Run(steps).isRunning
  {
    if rest == [] {
      assert steps + rest == steps;
    } else {
      var n := |rest| - 1;
      FinishesKeepCache(steps, rest[..n]);
      assert steps + rest == (steps + rest[..n]) + [rest[n]];
      RunExtended(steps + rest[..n], rest[n]);
    }
  }

  /** Polling along a run until the barrier passes, then waiting for the checkers while no event is
      handled, comes to looking once at the end. */
  lemma PolledIsGathered(steps: seq<Step>, polls: seq<Cache>, rest: seq<Step>, keys: set<string>, version: nat)
    requires OnlyFinishes(rest) && polls != [] && polls[|polls| - 1] == Run(steps).cache
    requires forall i :: 0 <= i < |polls| - 1 ==> !BarrierPassed(polls[i], keys, version)
    ensures GatheredOver(polls, Run(steps + rest), keys, version) == Gathered(Run(steps + rest), keys, version)
  {
    FinishesKeepCache(steps, rest);
  }

  lemma RunExtended(steps: seq<Step>, last: Step)
    ensures Run(steps + [last]) == Stepped(Run(steps), last)
  {
    assert (steps + [last])[..|steps|] == steps;
  }

  ghost function StaleCheckerSteps(): seq<Step> {
    var a := Object(Some("a"), Some(1), Some("spec"));
    var a' := Object(Some("a"), Some(2), None);
    var b := Object(Some("b"), Some(4), Some("spec"));
    [Handle(Event(None, Some(a), true))] + [Finish(0, WaitSucceeded)]
    + [Handle(Event(Some(a), Some(a'), true))] + [Handle(Event(Some(a'), None, true))]
    + [Handle(Event(None, Some(b), false))]
  }

  ghost const STALE := State(true, Cache({"b"}, 4),
                             Registry(map["a" := 0], [CheckerState("a", "spec", false, false, Running)]))

  lemma StaleCheckerRun()
    ensures Run(StaleCheckerSteps()) == STALE
  {
    var steps := StaleCheckerSteps();
    var t1, t2, t3, t4 := steps[..1], steps[..2], steps[..3], steps[..4];
    RunExtended([], steps[0]);
    RunExtended(t1, steps[1]);
    RunExtended(t2, steps[2]);
    RunExtended(t3, steps[3]);
    RunExtended(t4, steps[4]);
    assert [] + [steps[0]] == t1 && t1 + [steps[1]] == t2 && t2 + [steps[2]] == t3;
    assert t3 + [steps[3]] == t4 && t4 + [steps[4]] == steps;
    assert Run(t1).registry == Registry(map["a" := 0], [CheckerState("a", "spec", false, false, Unknown)]);
    assert Run(t2).registry == STALE.registry;
    assert Run(t4) == State(true, Cache({}, 2), STALE.registry);
  }

  /** The orderliness of deletions is needed: a deleted object without a readable spec leaves its
      checker behind, and the count then takes it for that of an object without one. */
  lemma StaleCheckerFalseSuccess()
    ensures Gathered(Run(StaleCheckerSteps()), {"b"}, 4) == Success
    ensures "b" !in Run(StaleCheckerSteps()).registry.entries
  {
    StaleCheckerRun();
    assert Statuses(STALE.registry) == map["a" := Running];
    OneRunning("a");
  }

  lemma OneRunning(k: string)
    ensures Tallied(map[k := Running], 1) == Success
  {
    TallySucceedsIff(map[k := Running], {k});
  }
}
