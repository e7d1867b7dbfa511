/** The WaitForControlledPodsRunning measurement object, proved against the functions on values. */
module ControlledPodsMeasurement {
  import opened Basics
  import opened Options
  import opened CheckerMaps
  import opened ControlledPodsWait

  class Measurement {
    var isRunning: bool
    var objectKeys: set<string>
    var opResourceVersion: nat
    const checkerMap: CheckerMap

    ghost predicate Valid()
      reads this, checkerMap, checkerMap.created
    {
      checkerMap.Valid()
    }

    ghost function View(): State
      reads this, checkerMap
    {
      State(isRunning, Cache(objectKeys, opResourceVersion), checkerMap.registry)
    }

    constructor ()
      ensures Valid() && View() == STARTED.(isRunning := false)
    {
      isRunning, objectKeys, opResourceVersion := false, {}, 0;
      checkerMap := new CheckerMap();
    }

    /** Handles an informer event: updates the checkers where the spec changed and, whichever way
        that goes, the known keys and version. */
    method HandleObject(e: Event)
      requires Valid()
      modifies this, checkerMap, checkerMap.created
      ensures Valid()
      ensures View() == HandledState(old(View()), e)
      ensures isRunning == old(isRunning) && (!isRunning ==> checkerMap.registry == old(checkerMap.registry))
    {
      if CompareSpecs(e.oldObj, e.newObj) == Different && isRunning {
        DeleteObjectLocked(e);
        HandleObjectLocked(e);
      }
      UpdateCacheLocked(e);
    }

    method DeleteObjectLocked(e: Event)
      requires Valid()
      modifies checkerMap, checkerMap.created
      ensures Valid() && checkerMap.created == old(checkerMap.created)
      ensures checkerMap.registry == OldCheckerRemoved(old(checkerMap.registry), e)
    {
      if e.oldObj.Some? && e.oldObj.value.key.Some? {
        var _ := checkerMap.DeleteAndStop(e.oldObj.value.key.value);
      }
    }

    method HandleObjectLocked(e: Event)
      requires Valid() && CompareSpecs(e.oldObj, e.newObj) == Different
      modifies checkerMap, checkerMap.created
      ensures Valid()
      ensures checkerMap.registry == CheckerAdded(old(checkerMap.registry), e)
    {
      var isObjDeleted := e.newObj.None?;
      var handledObj := if isObjDeleted then e.oldObj.value else e.newObj.value;
      if handledObj.key.Some? && e.creatable {
        var c := new ObjectChecker(handledObj.key.value, handledObj.spec.value, isObjDeleted, |checkerMap.created|);
        checkerMap.Add(handledObj.key.value, c);
      }
    }

    /** The end of a checker's wait, whenever it comes. */
    method FinishWait(c: ObjectChecker, outcome: Outcome)
      requires Valid() && c in checkerMap.created
      modifies checkerMap, checkerMap.created
      ensures Valid() && checkerMap.created == old(checkerMap.created)
      ensures checkerMap.registry == Finished(old(checkerMap.registry), c.id, outcome)
    {
      match outcome {
        case StartFailed =>
        case WaitSucceeded => c.status := if c.isDeleted then Deleted else Running;
        case WaitFailed(timedOut) =>
          c.status := Failed;
          if timedOut {
            c.status := if c.isDeleted then DeleteTimeout else Timeout;
          }
      }
      checkerMap.registry := Finished(checkerMap.registry, c.id, outcome);
    }

    method UpdateCacheLocked(e: Event)
      modifies this`objectKeys, this`opResourceVersion
      ensures Cache(objectKeys, opResourceVersion) == CacheUpdated(old(Cache(objectKeys, opResourceVersion)), e)
    {
      if e.oldObj.Some? {
        if e.oldObj.value.key.Some? {
          objectKeys := objectKeys - {e.oldObj.value.key.value};
        }
        UpdateOpResourceVersionLocked(e.oldObj.value);
      }
      if e.newObj.Some? {
        if e.newObj.value.key.Some? {
          objectKeys := objectKeys + {e.newObj.value.key.value};
        }
        UpdateOpResourceVersionLocked(e.newObj.value);
      }
    }

    method UpdateOpResourceVersionLocked(o: Object)
      modifies this`opResourceVersion
      ensures opResourceVersion == Later(old(opResourceVersion), o)
    {
      if o.version.Some? && o.version.value > opResourceVersion {
        opResourceVersion := o.version.value;
      }
    }

    /** The keys of the readable listed objects and the newest of their versions. */
    static method GetObjectKeysAndMaxVersion(objects: seq<Object>) returns (keys: set<string>, version: nat)
      ensures forall k :: k in keys <==>
        exists i :: 0 <= i < |objects| && objects[i].key == Some(k) && objects[i].version.Some?
      ensures keys == ListedKeys(objects)
      ensures IsNewestListed(objects, version)
    {
      keys, version := {}, 0;
      for i := 0 to |objects|
        invariant keys == ListedKeys(objects[..i])
        invariant IsNewestListed(objects[..i], version)
      {
        ghost var before := objects[..i];
        assert objects[..i + 1] == before + [objects[i]];
        if Readable(objects[i]) {
          keys := keys + {objects[i].key.value};
          if objects[i].version.value > version {
            version := objects[i].version.value;
          }
        }
      }
      assert objects[..|objects|] == objects;
    }

    /** `polls` are the keys and version that the polls find, until the timeout; the checkers are
        those there are once all waits are over. */
    method Gather(listing: seq<Object>, polls: seq<Cache>) returns (result: GatherResult)
      requires Valid()
      ensures result == NotStarted <==> !isRunning
      ensures result == SyncTimeout <==> isRunning && forall i :: 0 <= i < |polls| ==> !CaughtUp(polls[i], listing)
      ensures isRunning ==>
        exists version ::
          IsNewestListed(listing, version) && result == GatheredOver(polls, View(), ListedKeys(listing), version)
    {
      if !isRunning {
        return NotStarted;
      }
      var keys, maxResourceVersion := GetObjectKeysAndMaxVersion(listing);
      forall i | 0 <= i < |polls|
        ensures CaughtUp(polls[i], listing) <==> BarrierPassed(polls[i], keys, maxResourceVersion)
      {
        CaughtUpIff(polls[i], listing, maxResourceVersion);
      }
      var passed := false;
      for i := 0 to |polls|
        invariant !passed && forall j :: 0 <= j < i ==> !BarrierPassed(polls[j], keys, maxResourceVersion)
      {
        if BarrierPassed(polls[i], keys, maxResourceVersion) {
          passed := true;
          break;
        }
      }
      if !passed {
        assert GatheredOver(polls, View(), ListedKeys(listing), maxResourceVersion) == SyncTimeout;
        return SyncTimeout;
      }
      var statuses := map k | k in checkerMap.entries :: checkerMap.entries[k].status;
      assert statuses == Statuses(checkerMap.registry);
      result := Tally(statuses, |keys|);
      NotTimedOut(statuses, |keys|);
      assert result == GatheredOver(polls, View(), ListedKeys(listing), maxResourceVersion);
    }
  }

  /** A poll finds exactly the listed keys and no listed version ahead of it. */
  ghost predicate CaughtUp(poll: Cache, listing: seq<Object>) {
    && poll.keys == ListedKeys(listing)
    && forall i :: 0 <= i < |listing| && listing[i].key.Some? && listing[i].version.Some? ==>
         listing[i].version.value <= poll.version
  }

  lemma CaughtUpIff(poll: Cache, listing: seq<Object>, version: nat)
    requires IsNewestListed(listing, version)
    ensures CaughtUp(poll, listing) <==> BarrierPassed(poll, ListedKeys(listing), version)
  {
  }

  lemma NotTimedOut(statuses: map<string, Status>, expected: nat)
    ensures Tallied(statuses, expected) != SyncTimeout && Tallied(statuses, expected) != NotStarted
  {
  }

  /** The tallies are right for the entries no longer to do, and none of these is unknown. */
  ghost predicate Counted(statuses: map<string, Status>, todo: set<string>, running: nat, timedOut: nat, failed: nat)
  {
    && (With(statuses, Unknown) - todo == {})
    && running == |With(statuses, Running) - todo|
    && timedOut == |With(statuses, Timeout) - todo| + |With(statuses, DeleteTimeout) - todo|
    && failed == |With(statuses, Failed) - todo|
  }

  lemma EntryCounted(statuses: map<string, Status>, status: Status, todo: set<string>, k: string)
    requires k in todo && k in statuses
    ensures |With(statuses, status) - (todo - {k})|
         == |With(statuses, status) - todo| + One(statuses[k] == status)
  {
    var counted := With(statuses, status) - todo;
    assert With(statuses, status) - (todo - {k}) == if statuses[k] == status then counted + {k} else counted;
  }

  lemma CountOne(statuses: map<string, Status>, todo: set<string>, k: string,
                 running: nat, timedOut: nat, failed: nat)
    requires k in todo && k in statuses && statuses[k] != Unknown
    requires Counted(statuses, todo, running, timedOut, failed)
    ensures Counted(statuses, todo - {k},
                    running + One(statuses[k] == Running),
                    timedOut + One(statuses[k] == Timeout) + One(statuses[k] == DeleteTimeout),
                    failed + One(statuses[k] == Failed))
  {
    EntryCounted(statuses, Unknown, todo, k);
    EntryCounted(statuses, Running, todo, k);
    EntryCounted(statuses, Timeout, todo, k);
    EntryCounted(statuses, DeleteTimeout, todo, k);
    EntryCounted(statuses, Failed, todo, k);
  }

  lemma Uncounted(statuses: map<string, Status>)
    ensures Counted(statuses, statuses.Keys, 0, 0, 0)
  {
    assert forall status :: With(statuses, status) - statuses.Keys == {};
  }

  lemma AllCounted(statuses: map<string, Status>, running: nat, timedOut: nat, failed: nat, expected: nat)
    requires Counted(statuses, {}, running, timedOut, failed)
    ensures Tallied(statuses, expected) == Verdict(running, timedOut, failed, expected)
  {
    assert forall status :: With(statuses, status) - {} == With(statuses, status);
  }

  /** Tallies the checkers in whatever order the map is walked; one whose wait has not ended makes
      the tally fail at once. */
  method Tally(statuses: map<string, Status>, expected: nat) returns (result: GatherResult)
    ensures result == Tallied(statuses, expected)
  {
    var numberRunning, numberTimeout, numberFailed := 0, 0, 0;
    var todo := statuses.Keys;
    Uncounted(statuses);
    while todo != {}
      invariant todo <= statuses.Keys
      invariant Counted(statuses, todo, numberRunning, numberTimeout, numberFailed)
      decreases todo
    {
      var k :| k in todo;
      if statuses[k] == Unknown {
        NoneWith(statuses, Unknown);
        return UnknownStatus;
      }
      CountOne(statuses, todo, k, numberRunning, numberTimeout, numberFailed);
      match statuses[k] {
        case Running => numberRunning := numberRunning + 1;
        case Timeout => numberTimeout := numberTimeout + 1;
        case DeleteTimeout => numberTimeout := numberTimeout + 1;
        case Failed => numberFailed := numberFailed + 1;
        case _ =>
      }
      todo := todo - {k};
    }
    AllCounted(statuses, numberRunning, numberTimeout, numberFailed, expected);
    if numberTimeout > 0 {
      return TimedOut(numberTimeout);
    }
    if expected != numberRunning {
      return IncorrectNumber(numberRunning, expected);
    }
    if numberFailed > 0 {
      return FailedStatuses(numberFailed);
    }
    return Success;
  }
}
