/** Checkers and the map that owns them.

    `Registry` is the value behind a checker map: every checker ever created, in order of
    creation, and which of them is the current entry of each key.
 */
module CheckerMaps {

  /** How far a checker's wait has got. */
  datatype Status = Unknown | Running | Deleted | Failed | Timeout | DeleteTimeout

  /** A checker waits for the pods that its object's spec asks for or, for a deleted object, for
      there to be none. */
  datatype CheckerState = CheckerState(key: string, spec: string, isDeleted: bool, stopped: bool, status: Status)

  datatype Registry = Registry(entries: map<string, nat>, checkers: seq<CheckerState>)

  ghost predicate WellFormed(r: Registry) {
    forall k :: k in r.entries ==> r.entries[k] < |r.checkers| && r.checkers[r.entries[k]].key == k
  }

  /** The checkers not stopped are exactly the current entries of their keys. */
  ghost predicate Owned(r: Registry) {
    && WellFormed(r)
    && forall i :: 0 <= i < |r.checkers| ==>
         (!r.checkers[i].stopped <==> r.checkers[i].key in r.entries && r.entries[r.checkers[i].key] == i)
  }

  ghost function Stopped(r: Registry, key: string): (r': Registry)
    requires WellFormed(r)
    ensures WellFormed(r')
  {
    if key in r.entries then
      r.(checkers := r.checkers[r.entries[key] := r.checkers[r.entries[key]].(stopped := true)])
    else
      r
  }

  ghost function Removed(r: Registry, key: string): (r': Registry)
    requires WellFormed(r)
    ensures WellFormed(r')
  {
    Registry(r.entries - {key}, Stopped(r, key).checkers)
  }

  /** A new, unfinished checker becomes the entry of `key`. */
  ghost function Added(r: Registry, key: string, spec: string, isDeleted: bool): (r': Registry)
    requires WellFormed(r)
    ensures WellFormed(r')
  {
    var c := CheckerState(key, spec, isDeleted, false, Unknown);
    Registry(r.entries[key := |r.checkers|], Stopped(r, key).checkers + [c])
  }

  /** Two running checkers never watch the same key. */
  lemma OneRunningCheckerPerKey(r: Registry, i: nat, j: nat)
    requires Owned(r) && i < |r.checkers| && j < |r.checkers|
    requires !r.checkers[i].stopped && !r.checkers[j].stopped && r.checkers[i].key == r.checkers[j].key
    ensures i == j
  {
    assert r.entries[r.checkers[i].key] == i;
  }

  lemma RemovedKeepsOwned(r: Registry, key: string)
    requires Owned(r)
    ensures Owned(Removed(r, key))
  {
  }

  lemma AddedKeepsOwned(r: Registry, key: string, spec: string, isDeleted: bool)
    requires Owned(r)
    ensures Owned(Added(r, key, spec, isDeleted))
  {
  }

  class ObjectChecker {
    const key: string
    const spec: string
    const isDeleted: bool
    /** The number of checkers created before this one. */
    ghost const id: nat
    var stopped: bool
    var status: Status

    constructor (key: string, spec: string, isDeleted: bool, ghost id: nat)
      ensures this.id == id && View() == CheckerState(key, spec, isDeleted, false, Unknown)
    {
      this.key, this.spec, this.isDeleted, this.id := key, spec, isDeleted, id;
      stopped, status := false, Unknown;
    }

    method Stop()
      modifies this
      ensures View() == old(View()).(stopped := true)
    {
      stopped := true;
    }

    ghost function View(): CheckerState
      reads this
    {
      CheckerState(key, spec, isDeleted, stopped, status)
    }
  }

  class CheckerMap {
    var entries: map<string, ObjectChecker>
    /** Every checker ever added, in order, and the registry they and the entries stand for. */
    ghost var created: seq<ObjectChecker>
    ghost var registry: Registry

    ghost predicate Valid()
      reads this, created
    {
      && WellFormed(registry)
      && |registry.checkers| == |created|
      && (forall i :: 0 <= i < |created| ==> created[i].id == i && created[i].View() == registry.checkers[i])
      && entries.Keys == registry.entries.Keys
      && (forall k :: k in entries ==> entries[k] == created[registry.entries[k]])
    }

    constructor ()
      ensures Valid() && created == [] && registry == Registry(map[], [])
    {
      entries, created, registry := map[], [], Registry(map[], []);
    }

    /** Makes `c` the entry of `key`, stopping the checker it replaces. */
    method Add(key: string, c: ObjectChecker)
      requires Valid() && c.id == |created|
      requires c.key == key && !c.stopped && c.status == Unknown
      modifies this, created
      ensures Valid() && created == old(created) + [c]
      ensures registry == Added(old(registry), key, c.spec, c.isDeleted)
    {
      if key in entries {
        entries[key].Stop();
      }
      entries := entries[key := c];
      created, registry := created + [c], Added(registry, key, c.spec, c.isDeleted);
    }

    /** Stops and forgets the checker of `key`, if there is one. */
    method DeleteAndStop(key: string) returns (existed: bool)
      requires Valid()
      modifies this, created
      ensures Valid() && created == old(created)
      ensures existed <==> key in old(entries)
      ensures registry == Removed(old(registry), key)
    {
      if key in entries {
        entries[key].Stop();
        entries := entries - {key};
        registry := Removed(registry, key);
        return true;
      }
      assert Removed(registry, key) == registry;
      return false;
    }
  }
}
