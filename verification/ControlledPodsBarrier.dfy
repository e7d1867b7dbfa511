/** Why `gather` may trust what the handler has registered once its barrier has passed.

    The API server's history is a sequence of changes with increasing versions. The informer
    feeds the handler one snapshot of the objects, in any order, and then one event per change.
    `gather` lists the objects at some moment of its own.
 */
module ControlledPodsBarrier {
  import opened Options
  import opened CheckerMaps
  import opened ControlledPodsWait

  /** A deletion event may report an older version of the object than that of the deletion. */
  datatype Change =
    | Put(key: string, version: nat, spec: Option<string>)
    | Remove(key: string, version: nat, reported: nat, spec: Option<string>)

  datatype Stored = Stored(version: nat, spec: Option<string>)

  function ToObject(k: string, o: Stored): Object {
    Object(Some(k), Some(o.version), o.spec)
  }

  /** The objects after the first `n` changes. */
  ghost function StoreAfter(h: seq<Change>, n: nat): map<string, Stored>
    requires n <= |h|
  {
    if n == 0 then map[]
    else
      match h[n - 1]
      case Put(k, version, spec) => StoreAfter(h, n - 1)[k := Stored(version, spec)]
      case Remove(k, _, _, _) => StoreAfter(h, n - 1) - {k}
  }

  ghost predicate ValidHistory(h: seq<Change>) {
    && (forall i, j :: 0 <= i < j < |h| ==> h[i].version < h[j].version)
    && (forall i :: 0 <= i < |h| && h[i].Remove? ==> h[i].reported <= h[i].version)
  }

  /** The newest version among the first `n` changes. */
  ghost function Newest(h: seq<Change>, n: nat): nat
    requires n <= |h|
  {
    if n == 0 then 0 else h[n - 1].version
  }

  lemma {:induction false} StoredVersions(h: seq<Change>, n: nat, k: string)
    requires ValidHistory(h) && n <= |h| && k in StoreAfter(h, n)
    ensures StoreAfter(h, n)[k].version <= Newest(h, n)
  {
    if n == 0 {
    } else if k in StoreAfter(h, n - 1) {
      StoredVersions(h, n - 1, k);
    }
  }

  /** An object listed later is the same object or one newer than everything before. */
  lemma {:induction false} StoredLater(h: seq<Change>, m: nat, n: nat, k: string)
    requires ValidHistory(h) && m <= n <= |h| && k in StoreAfter(h, n)
    ensures m == 0
         || StoreAfter(h, n)[k].version > Newest(h, m)
         || (k in StoreAfter(h, m) && StoreAfter(h, m)[k] == StoreAfter(h, n)[k])
  {
    if m == n {
    } else if !(h[n - 1].Put? && h[n - 1].key == k) {
      StoredLater(h, m, n - 1, k);
    }
  }

  // ---------- the event feed ----------

  datatype Feed = Feed(history: seq<Change>, start: nat, order: seq<string>, creatable: nat -> bool)

  ghost predicate ValidFeed(f: Feed) {
    && ValidHistory(f.history)
    && f.start <= |f.history|
    && (forall k :: k in f.order <==> k in StoreAfter(f.history, f.start))
    && (forall i, j :: 0 <= i < j < |f.order| ==> f.order[i] != f.order[j])
  }

  ghost function Length(f: Feed): int {
    |f.order| + |f.history| - f.start
  }

  /** How many changes of the history have been fed after `n` events. */
  ghost function ChangesFed(f: Feed, n: nat): nat {
    if n <= |f.order| then f.start else f.start + n - |f.order|
  }

  ghost function EventAt(f: Feed, n: nat): Event
    requires ValidFeed(f) && n < Length(f)
  {
    if n < |f.order| then
      var k := f.order[n];
      Event(None, Some(ToObject(k, StoreAfter(f.history, f.start)[k])), f.creatable(n))
    else
      var t := ChangesFed(f, n);
      match f.history[t]
      case Put(k, version, spec) =>
        var stored := StoreAfter(f.history, t);
        Event(if k in stored then Some(ToObject(k, stored[k])) else None,
              Some(ToObject(k, Stored(version, spec))), f.creatable(n))
      case Remove(k, _, reported, spec) =>
        Event(Some(ToObject(k, Stored(reported, spec))), None, f.creatable(n))
  }

  ghost predicate FedBy(f: Feed, events: seq<Event>)
    requires ValidFeed(f)
  {
    |events| <= Length(f) && forall i :: 0 <= i < |events| ==> events[i] == EventAt(f, i)
  }

  lemma FedPrefix(f: Feed, before: seq<Event>, events: seq<Event>)
    requires ValidFeed(f) && FedBy(f, events) && before <= events
    ensures FedBy(f, before)
  {
    forall i | 0 <= i < |before| ensures before[i] == EventAt(f, i) {
      assert before[i] == events[i];
    }
  }

  /** The keys the handler should know after `n` events. */
  ghost function KeysFed(f: Feed, n: nat): set<string>
    requires ValidFeed(f) && n <= Length(f)
  {
    if n < |f.order| then set k | k in f.order[..n] else StoreAfter(f.history, ChangesFed(f, n)).Keys
  }

  ghost function CacheAfter(events: seq<Event>): Cache {
    if events == [] then Cache({}, 0)
    else CacheUpdated(CacheAfter(events[..|events| - 1]), events[|events| - 1])
  }

  lemma KeysFedStep(f: Feed, n: nat)
    requires ValidFeed(f) && n < Length(f)
    ensures KeysFed(f, n + 1) == KeysFed(f, n) - KeySet(EventAt(f, n).oldObj) + KeySet(EventAt(f, n).newObj)
  {
    if n < |f.order| {
      assert f.order[..n + 1] == f.order[..n] + [f.order[n]];
      assert n + 1 == |f.order| ==> f.order[..n + 1] == f.order;
    }
  }

  /** After any prefix of the feed the handler knows exactly the keys fed, and no version beyond
      the changes fed. */
  lemma {:induction false} CacheOfFeed(f: Feed, events: seq<Event>)
    requires ValidFeed(f) && FedBy(f, events)
    ensures CacheAfter(events).keys == KeysFed(f, |events|)
    ensures CacheAfter(events).version <= Newest(f.history, ChangesFed(f, |events|))
  {
    if events == [] {
      assert KeysFed(f, 0) == {};
    } else {
      var n := |events| - 1;
      FedPrefix(f, events[..n], events);
      CacheOfFeed(f, events[..n]);
      KeysFedStep(f, n);
      VersionsFedStep(f, n);
    }
  }

  lemma VersionsFedStep(f: Feed, n: nat)
    requires ValidFeed(f) && n < Length(f)
    ensures Newest(f.history, ChangesFed(f, n)) <= Newest(f.history, ChangesFed(f, n + 1))
    ensures
      var e := EventAt(f, n);
      var newest := Newest(f.history, ChangesFed(f, n + 1));
      && (e.oldObj.Some? ==> e.oldObj.value.version.value <= newest)
      && (e.newObj.Some? ==> e.newObj.value.version.value <= newest)
  {
    var t := ChangesFed(f, n);
    if n < |f.order| {
      StoredVersions(f.history, f.start, f.order[n]);
    } else if f.history[t].key in StoreAfter(f.history, t) {
      StoredVersions(f.history, t, f.history[t].key);
    }
  }

  // ---------- the last event about a key ----------

  predicate About(e: Event, k: string) {
    k in KeySet(e.oldObj) + KeySet(e.newObj)
  }

  /** Event `i` is the last of `events` about `k`, and leaves `k` in place as `o`. */
  ghost predicate LastAbout(events: seq<Event>, i: nat, k: string, o: Stored) {
    && i < |events|
    && events[i].newObj == Some(ToObject(k, o))
    && forall j :: i < j < |events| ==> !About(events[j], k)
  }

  lemma LeftInPlace(f: Feed, n: nat, k: string)
    requires ValidFeed(f) && n < Length(f) && k in KeysFed(f, n + 1) && About(EventAt(f, n), k)
    ensures k in StoreAfter(f.history, ChangesFed(f, n + 1))
    ensures EventAt(f, n).newObj == Some(ToObject(k, StoreAfter(f.history, ChangesFed(f, n + 1))[k]))
  {
    KeysFedStep(f, n);
  }

  lemma StoreUntouched(f: Feed, n: nat, k: string)
    requires ValidFeed(f) && n < Length(f) && !About(EventAt(f, n), k)
    ensures
      var store, store' := StoreAfter(f.history, ChangesFed(f, n)), StoreAfter(f.history, ChangesFed(f, n + 1));
      k in store ==> k in store' && store'[k] == store[k]
  {
    if n >= |f.order| {
      var t := ChangesFed(f, n);
      assert ChangesFed(f, n + 1) == t + 1;
      assert f.history[t].key != k;
    }
  }

  lemma StillLastAbout(events: seq<Event>, e: Event, i: nat, k: string, o: Stored)
    requires LastAbout(events, i, k, o) && !About(e, k)
    ensures LastAbout(events + [e], i, k, o)
  {
    var all := events + [e];
    forall j | i < j < |all| ensures !About(all[j], k) {
      assert all[j] == if j < |events| then events[j] else e;
    }
  }

  lemma NothingFed(f: Feed)
    requires ValidFeed(f)
    ensures KeysFed(f, 0) == {}
  {
    assert f.order == [] ==> forall k :: k !in StoreAfter(f.history, f.start);
  }

  lemma LastLeftInPlace(f: Feed, events: seq<Event>, n: nat, k: string)
    requires ValidFeed(f) && FedBy(f, events) && n == |events| - 1 && k in KeysFed(f, n + 1) && About(events[n], k)
    ensures k in StoreAfter(f.history, ChangesFed(f, n + 1))
    ensures LastAbout(events, n, k, StoreAfter(f.history, ChangesFed(f, n + 1))[k])
  {
    assert events[n] == EventAt(f, n);
    LeftInPlace(f, n, k);
  }

  lemma LastElsewhere(f: Feed, events: seq<Event>, n: nat, k: string)
    requires ValidFeed(f) && FedBy(f, events) && n == |events| - 1 && k in KeysFed(f, n + 1) && !About(events[n], k)
    ensures k in KeysFed(f, n) && FedBy(f, events[..n])
    ensures
      var store, store' := StoreAfter(f.history, ChangesFed(f, n)), StoreAfter(f.history, ChangesFed(f, n + 1));
      k in store ==> k in store' && store'[k] == store[k]
  {
    assert events[n] == EventAt(f, n);
    KeysFedStep(f, n);
    StoreUntouched(f, n, k);
    FedPrefix(f, events[..n], events);
  }

  lemma {:induction false} LastEventOfFeed(f: Feed, events: seq<Event>, k: string) returns (i: nat)
    requires ValidFeed(f) && FedBy(f, events) && k in KeysFed(f, |events|)
    ensures k in StoreAfter(f.history, ChangesFed(f, |events|))
    ensures LastAbout(events, i, k, StoreAfter(f.history, ChangesFed(f, |events|))[k])
  {
    if events == [] {
      NothingFed(f);
      assert false;
    } else {
      var n := |events| - 1;
      if About(events[n], k) {
        LastLeftInPlace(f, events, n, k);
        i := n;
      } else {
        LastElsewhere(f, events, n, k);
        i := LastEventOfFeed(f, events[..n], k);
        StillLastAbout(events[..n], events[n], i, k, StoreAfter(f.history, ChangesFed(f, n))[k]);
        assert events == events[..n] + [events[n]];
      }
    }
  }

  // ---------- the barrier ----------

  /** The readable objects of a listing are those of the history at one moment. */
  ghost predicate ListedAt(h: seq<Change>, n: nat, listing: seq<Object>)
    requires n <= |h|
  {
    forall i :: 0 <= i < |listing| && Readable(listing[i]) ==>
      && listing[i].key.value in StoreAfter(h, n)
      && listing[i].version.value == StoreAfter(h, n)[listing[i].key.value].version
  }

  ghost function EventsOf(steps: seq<Step>): seq<Event> {
    if steps == [] then []
    else
      var last := steps[|steps| - 1];
      EventsOf(steps[..|steps| - 1]) + if last.Handle? then [last.event] else []
  }

  lemma {:induction false} RunCache(steps: seq<Step>)
    ensures Run(steps).cache == CacheAfter(EventsOf(steps))
  {
    if steps == [] {
    } else {
      var before, last := steps[..|steps| - 1], steps[|steps| - 1];
      RunCache(before);
      if last.Handle? {
        var events := EventsOf(steps);
        assert events == EventsOf(before) + [last.event];
        assert events[..|events| - 1] == EventsOf(before);
      } else {
        assert EventsOf(steps) == EventsOf(before);
      }
    }
  }

  /** Barrier soundness: over every feed, whatever prefix of it was handled and whenever the
      listing was made, once the barrier has passed the last event handled about each listed
      object put it in place at its listed version or a later one. */
  lemma BarrierSound(f: Feed, steps: seq<Step>, listing: seq<Object>, listed: nat, version: nat, o: Object)
    returns (i: nat, handled: Stored)
    requires ValidFeed(f) && FedBy(f, EventsOf(steps))
    requires listed <= |f.history| && ListedAt(f.history, listed, listing)
    requires IsNewestListed(listing, version)
    requires BarrierPassed(Run(steps).cache, ListedKeys(listing), version)
    requires o in listing && Readable(o)
    ensures LastAbout(EventsOf(steps), i, o.key.value, handled)
    ensures handled.version >= o.version.value
    ensures o.key.value in StoreAfter(f.history, ChangesFed(f, |EventsOf(steps)|))
    ensures handled == StoreAfter(f.history, ChangesFed(f, |EventsOf(steps)|))[o.key.value]
  {
    var h, events, k := f.history, EventsOf(steps), o.key.value;
    var fed := ChangesFed(f, |events|);
    RunCache(steps);
    CacheOfFeed(f, events);
    assert k in ListedKeys(listing);
    i := LastEventOfFeed(f, events, k);
    handled := StoreAfter(h, fed)[k];
    if fed <= listed {
      StoredLater(h, fed, listed, k);
    } else {
      StoredLater(h, listed, fed, k);
      StoredVersions(h, listed, k);
    }
  }

  /** The version reached is no older than any object as the handler has been told of it, whether or
      not the events changed a spec. */
  lemma {:induction false} VersionReached(f: Feed, events: seq<Event>, k: string)
    requires ValidFeed(f) && FedBy(f, events) && k in KeysFed(f, |events|)
    ensures k in StoreAfter(f.history, ChangesFed(f, |events|))
    ensures StoreAfter(f.history, ChangesFed(f, |events|))[k].version <= CacheAfter(events).version
  {
    if events == [] {
      NothingFed(f);
      assert false;
    } else {
      var n := |events| - 1;
      if About(events[n], k) {
        LastLeftInPlace(f, events, n, k);
      } else {
        LastElsewhere(f, events, n, k);
        VersionReached(f, events[..n], k);
        VersionGrows(CacheAfter(events[..n]), events[n]);
      }
    }
  }

  lemma VersionGrows(c: Cache, e: Event)
    ensures c.version <= CacheUpdated(c, e).version
  {
  }

  /** The listing shows every object of the history at one moment, and can be read. */
  ghost predicate CompleteAt(h: seq<Change>, n: nat, listing: seq<Object>)
    requires n <= |h|
  {
    ListedAt(h, n, listing) && ListedKeys(listing) == StoreAfter(h, n).Keys
  }

  /** Barrier completeness: once the handler has been fed the snapshot and the changes up to a
      complete listing, the barrier passes. */
  lemma BarrierPasses(f: Feed, steps: seq<Step>, listing: seq<Object>, version: nat)
    requires ValidFeed(f) && FedBy(f, EventsOf(steps)) && |EventsOf(steps)| >= |f.order|
    requires CompleteAt(f.history, ChangesFed(f, |EventsOf(steps)|), listing) && IsNewestListed(listing, version)
    ensures BarrierPassed(Run(steps).cache, ListedKeys(listing), version)
  {
    var events := EventsOf(steps);
    RunCache(steps);
    CacheOfFeed(f, events);
    if version > 0 {
      var i :| 0 <= i < |listing| && Readable(listing[i]) && listing[i].version.value == version;
      VersionReached(f, events, listing[i].key.value);
    }
  }

  // ---------- which spec a checker is for ----------

  /** What a registered checker waits for. */
  datatype Entry = Entry(spec: string, isDeleted: bool)

  ghost function EntryOf(r: Registry, k: string): Option<Entry>
    requires WellFormed(r)
  {
    if k in r.entries then Some(Entry(r.checkers[r.entries[k]].spec, r.checkers[r.entries[k]].isDeleted)) else None
  }

  /** What one event does to the entry of `k`: nothing unless the specs differ. */
  ghost function EntryUpdated(entry: Option<Entry>, e: Event, k: string): Option<Entry> {
    if CompareSpecs(e.oldObj, e.newObj) != Different then entry
    else if e.creatable && Handled(e).value.key == Some(k) then Some(Entry(Handled(e).value.spec.value, e.newObj.None?))
    else if k in KeySet(e.oldObj) then None
    else entry
  }

  ghost function EntryAfter(events: seq<Event>, k: string): Option<Entry> {
    if events == [] then None else EntryUpdated(EntryAfter(events[..|events| - 1], k), events[|events| - 1], k)
  }

  lemma EntryHandled(r: Registry, e: Event, k: string)
    requires WellFormed(r)
    ensures EntryOf(RegistryUpdated(r, e), k) == EntryUpdated(EntryOf(r, k), e, k)
  {
    if CompareSpecs(e.oldObj, e.newObj) == Different {
      var r', o := OldCheckerRemoved(r, e), Handled(e).value;
      EntryRemoved(r, e, k);
      if o.key.Some? {
        EntryAdded(r', o.key.value, o.spec.value, e.newObj.None?, k);
      }
    }
  }

  lemma EntryRemoved(r: Registry, e: Event, k: string)
    requires WellFormed(r)
    ensures EntryOf(OldCheckerRemoved(r, e), k) == if k in KeySet(e.oldObj) then None else EntryOf(r, k)
  {
  }

  lemma EntryAdded(r: Registry, key: string, spec: string, isDeleted: bool, k: string)
    requires WellFormed(r)
    ensures EntryOf(Added(r, key, spec, isDeleted), k) == if k == key then Some(Entry(spec, isDeleted)) else EntryOf(r, k)
  {
  }

  lemma EventsExtended(steps: seq<Step>)
    requires steps != []
    ensures EventsOf(steps[..|steps| - 1]) <= EventsOf(steps)
    ensures steps[|steps| - 1].Handle? ==>
      EventsOf(steps) == EventsOf(steps[..|steps| - 1]) + [steps[|steps| - 1].event]
    ensures steps[|steps| - 1].Finish? ==> EventsOf(steps) == EventsOf(steps[..|steps| - 1])
  {
  }

  /** Over every run, whatever the events: the entry of a key is determined by the events alone. */
  lemma {:induction false} RunRegisters(steps: seq<Step>, k: string)
    ensures Run(steps).isRunning
    ensures EntryOf(Run(steps).registry, k) == EntryAfter(EventsOf(steps), k)
  {
    if steps == [] {
    } else {
      var before, last := steps[..|steps| - 1], steps[|steps| - 1];
      RunRegisters(before, k);
      EventsExtended(steps);
      if last.Handle? {
        EntryHandled(Run(before).registry, last.event, k);
        assert EventsOf(steps)[..|EventsOf(steps)| - 1] == EventsOf(before);
      }
    }
  }

  /** The checker of `k`, if it awaits pods, is for a known object and the spec last fed for it. */
  ghost predicate Current(f: Feed, n: nat, entry: Option<Entry>, k: string)
    requires ValidFeed(f) && n <= Length(f)
  {
    entry.Some? && !entry.value.isDeleted ==>
      && k in KeysFed(f, n)
      && k in StoreAfter(f.history, ChangesFed(f, n))
      && StoreAfter(f.history, ChangesFed(f, n))[k].spec == Some(entry.value.spec)
  }

  /** An event leaves a current checker behind exactly when it is about its object and the handler
      cannot compare the specs. */
  lemma HandleKeepsCurrentIff(f: Feed, n: nat, entry: Option<Entry>, k: string)
    requires ValidFeed(f) && n < Length(f) && Current(f, n, entry, k)
    ensures
      var e := EventAt(f, n);
      Current(f, n + 1, EntryUpdated(entry, e, k), k) <==>
      !(entry.Some? && !entry.value.isDeleted && About(e, k) && CompareSpecs(e.oldObj, e.newObj) == Unreadable)
  {
    KeysFedStep(f, n);
    if !About(EventAt(f, n), k) {
      StoreUntouched(f, n, k);
    }
  }

  // ---------- what a success is worth ----------

  ghost predicate ReadableDeletions(events: seq<Event>) {
    forall i :: 0 <= i < |events| && events[i].oldObj.Some? && events[i].newObj.None? ==> events[i].oldObj.value.spec.Some?
  }

  predicate Compares(e: Event, k: string, c: Comparison) {
    About(e, k) && CompareSpecs(e.oldObj, e.newObj) == c
  }

  /** Event `j` is the last about `k` whose specs the handler found to differ. */
  ghost predicate LastDifferent(events: seq<Event>, j: nat, k: string) {
    && j < |events| && Compares(events[j], k, Different)
    && forall m :: j < m < |events| ==> !Compares(events[m], k, Different)
  }

  /** After event `j` some event about `k` could not be compared, and the spec is another by event `i`. */
  ghost predicate Outdated(events: seq<Event>, j: nat, i: nat, k: string)
    requires j < |events| && i < |events| && events[j].newObj.Some? && events[i].newObj.Some?
  {
    && (exists m :: j < m < |events| && Compares(events[m], k, Unreadable))
    && events[i].newObj.value.spec != events[j].newObj.value.spec
  }

  predicate AwaitsPods(entry: Option<Entry>) {
    entry.Some? && !entry.value.isDeleted
  }

  lemma {:induction false} AwaitedIsKnown(f: Feed, events: seq<Event>, k: string)
    requires ValidFeed(f) && FedBy(f, events) && ReadableDeletions(events) && AwaitsPods(EntryAfter(events, k))
    ensures k in KeysFed(f, |events|)
  {
    if events == [] {
    } else {
      var n := |events| - 1;
      assert events[n] == EventAt(f, n);
      KeysFedStep(f, n);
      if !About(events[n], k) {
        FedPrefix(f, events[..n], events);
        AwaitedIsKnown(f, events[..n], k);
      }
    }
  }

  /** A spec found to differ leaves no checker of an earlier one, even if none can be created. */
  lemma DifferentReplaces(f: Feed, events: seq<Event>, k: string)
    requires ValidFeed(f) && FedBy(f, events) && ReadableDeletions(events) && events != []
    requires Compares(events[|events| - 1], k, Different)
    ensures AwaitsPods(EntryAfter(events, k)) <==> events[|events| - 1].creatable && events[|events| - 1].newObj.Some?
  {
    var n := |events| - 1;
    var e, before := events[n], events[..n];
    if AwaitsPods(EntryAfter(before, k)) {
      FedPrefix(f, before, events);
      AwaitedIsKnown(f, before, k);
    }
    assert e == EventAt(f, n);
    assert e.oldObj.None? ==> k !in KeysFed(f, n);
  }

  /** A checker that awaits pods awaits those of the spec last found to differ. */
  lemma {:induction false} AwaitedSpec(f: Feed, events: seq<Event>, k: string) returns (j: nat)
    requires ValidFeed(f) && FedBy(f, events) && ReadableDeletions(events) && AwaitsPods(EntryAfter(events, k))
    ensures LastDifferent(events, j, k) && events[j].newObj.Some?
    ensures events[j].newObj.value.spec == Some(EntryAfter(events, k).value.spec)
  {
    if events == [] {
      assert false;
    } else {
      var n := |events| - 1;
      if Compares(events[n], k, Different) {
        DifferentReplaces(f, events, k);
        KeyOfFeed(f, events, n, k);
        j := n;
      } else {
        EntryKept(f, events, n, k);
        FedPrefix(f, events[..n], events);
        j := AwaitedSpec(f, events[..n], k);
        StillLastDifferent(events[..n], events[n], j, k);
        assert events == events[..n] + [events[n]];
      }
    }
  }

  lemma StillLastDifferent(events: seq<Event>, e: Event, j: nat, k: string)
    requires LastDifferent(events, j, k) && !Compares(e, k, Different)
    ensures LastDifferent(events + [e], j, k)
  {
    var all := events + [e];
    forall m | j < m < |all| ensures !Compares(all[m], k, Different) {
      assert all[m] == if m < |events| then events[m] else e;
    }
  }

  lemma KeyOfFeed(f: Feed, events: seq<Event>, n: nat, k: string)
    requires ValidFeed(f) && FedBy(f, events) && n < |events| && About(events[n], k)
    ensures Handled(events[n]).value.key == Some(k)
  {
    assert events[n] == EventAt(f, n);
  }

  lemma EntryKept(f: Feed, events: seq<Event>, n: nat, k: string)
    requires ValidFeed(f) && FedBy(f, events) && n == |events| - 1 && !Compares(events[n], k, Different)
    ensures EntryAfter(events, k) == EntryAfter(events[..n], k)
  {
  }

  /** Where every event about `k` since could be compared, the spec is still the same. */
  lemma {:induction false} ComparedSpec(f: Feed, events: seq<Event>, j: nat, k: string)
    requires ValidFeed(f) && FedBy(f, events) && LastDifferent(events, j, k) && events[j].newObj.Some?
    requires forall m :: j < m < |events| ==> !Compares(events[m], k, Unreadable)
    ensures k in KeysFed(f, |events|) && k in StoreAfter(f.history, ChangesFed(f, |events|))
    ensures StoreAfter(f.history, ChangesFed(f, |events|))[k].spec == events[j].newObj.value.spec
  {
    var n := |events| - 1;
    assert events[n] == EventAt(f, n);
    KeysFedStep(f, n);
    if j == n {
      LeftInPlace(f, n, k);
    } else {
      FedPrefix(f, events[..n], events);
      ComparedSpec(f, events[..n], j, k);
      SpecKept(f, n, k);
    }
  }

  lemma SpecKept(f: Feed, n: nat, k: string)
    requires ValidFeed(f) && n < Length(f) && k in KeysFed(f, n) && k in StoreAfter(f.history, ChangesFed(f, n))
    requires !Compares(EventAt(f, n), k, Different) && !Compares(EventAt(f, n), k, Unreadable)
    ensures k in KeysFed(f, n + 1) && k in StoreAfter(f.history, ChangesFed(f, n + 1))
    ensures StoreAfter(f.history, ChangesFed(f, n + 1))[k].spec == StoreAfter(f.history, ChangesFed(f, n))[k].spec
  {
    KeysFedStep(f, n);
    if About(EventAt(f, n), k) {
      LeftInPlace(f, n, k);
    } else {
      StoreUntouched(f, n, k);
    }
  }

  /** The events of a feed are orderly exactly when the specs of its deletions are readable. */
  lemma {:induction false} FeedIsOrderly(f: Feed, steps: seq<Step>)
    requires ValidFeed(f) && FedBy(f, EventsOf(steps))
    ensures OrderlySteps(steps) <==> ReadableDeletions(EventsOf(steps))
  {
    if steps == [] {
    } else {
      var before, last := steps[..|steps| - 1], steps[|steps| - 1];
      EventsExtended(steps);
      FedPrefix(f, EventsOf(before), EventsOf(steps));
      FeedIsOrderly(f, before);
      assert steps == before + [last];
      if last.Handle? {
        OneKeyOfFeed(f, EventsOf(steps), |EventsOf(before)|);
        DeletionsExtended(EventsOf(before), last.event);
      }
    }
  }

  lemma OneKeyOfFeed(f: Feed, events: seq<Event>, n: nat)
    requires ValidFeed(f) && FedBy(f, events) && n < |events|
    ensures Orderly(events[n]) <==> (events[n].oldObj.Some? && events[n].newObj.None? ==> events[n].oldObj.value.spec.Some?)
  {
    assert events[n] == EventAt(f, n);
  }

  lemma DeletionsExtended(events: seq<Event>, e: Event)
    ensures ReadableDeletions(events + [e]) <==>
      ReadableDeletions(events) && (e.oldObj.Some? && e.newObj.None? ==> e.oldObj.value.spec.Some?)
  {
    assert forall i :: 0 <= i < |events| ==> (events + [e])[i] == events[i];
    assert (events + [e])[|events|] == e;
  }

  /** What a successful `gather` is worth: every listed object was handled at its listed version or
      a later one, and the pods of the spec last found to differ were seen running. That is the spec
      handled last unless an event since could not be compared and the spec changed. */
  lemma SuccessMeansRunning(f: Feed, steps: seq<Step>, listing: seq<Object>, listed: nat, version: nat, o: Object)
    returns (j: nat, i: nat, handled: Stored, finish: nat)
    requires ValidFeed(f) && FedBy(f, EventsOf(steps)) && ReadableDeletions(EventsOf(steps))
    requires listed <= |f.history| && ListedAt(f.history, listed, listing)
    requires IsNewestListed(listing, version)
    requires Gathered(Run(steps), ListedKeys(listing), version) == Success
    requires o in listing && Readable(o)
    ensures LastAbout(EventsOf(steps), i, o.key.value, handled) && handled.version >= o.version.value
    ensures LastDifferent(EventsOf(steps), j, o.key.value) && EventsOf(steps)[j].newObj.Some?
    ensures o.key.value in Run(steps).registry.entries
    ensures
      var id := Run(steps).registry.entries[o.key.value];
      var c := Run(steps).registry.checkers[id];
      && finish < |steps| && steps[finish] == Finish(id, WaitSucceeded) && Undecided(steps, id, finish + 1)
      && EventsOf(steps)[j].newObj.value.spec == Some(c.spec)
      && (handled.spec == Some(c.spec) <==> !Outdated(EventsOf(steps), j, i, o.key.value))
  {
    var events, k, r := EventsOf(steps), o.key.value, Run(steps).registry;
    RunningChecker(f, steps, listing, version, o);
    finish := StatusTellsEnding(steps, r.entries[k]);
    RunRegisters(steps, k);
    i, handled := BarrierSound(f, steps, listing, listed, version, o);
    j := AwaitedSpec(f, events, k);
    if forall m :: j < m < |events| ==> !Compares(events[m], k, Unreadable) {
      ComparedSpec(f, events, j, k);
    }
  }

  lemma RunningChecker(f: Feed, steps: seq<Step>, listing: seq<Object>, version: nat, o: Object)
    requires ValidFeed(f) && FedBy(f, EventsOf(steps)) && ReadableDeletions(EventsOf(steps))
    requires Gathered(Run(steps), ListedKeys(listing), version) == Success
    requires o in listing && Readable(o)
    ensures BarrierPassed(Run(steps).cache, ListedKeys(listing), version)
    ensures
      var r := Run(steps).registry;
      && o.key.value in r.entries
      && r.checkers[r.entries[o.key.value]].status == Running && !r.checkers[r.entries[o.key.value]].isDeleted
  {
    FeedIsOrderly(f, steps);
    GatherSucceedsIff(steps, ListedKeys(listing), version);
    RunStatusesSound(steps);
    assert o.key.value in ListedKeys(listing);
    assert Statuses(Run(steps).registry)[o.key.value] == Running;
  }

  /** With readable specs of its object a checker is never outdated. */
  lemma ReadableNeverOutdated(f: Feed, events: seq<Event>, k: string, m: nat)
    requires ValidFeed(f) && FedBy(f, events) && m < |events|
    requires forall c :: c in f.history && c.key == k ==> c.spec.Some?
    ensures !Compares(events[m], k, Unreadable)
  {
    assert events[m] == EventAt(f, m);
    var t := ChangesFed(f, m);
    if k in StoreAfter(f.history, t) {
      StoredSpecs(f.history, t, k);
    }
  }

  lemma {:induction false} StoredSpecs(h: seq<Change>, n: nat, k: string)
    requires n <= |h| && k in StoreAfter(h, n)
    requires forall c :: c in h && c.key == k ==> c.spec.Some?
    ensures StoreAfter(h, n)[k].spec.Some?
  {
    if h[n - 1].Put? && h[n - 1].key == k {
    } else {
      StoredSpecs(h, n - 1, k);
    }
  }

  // ---------- an outdated success ----------

  ghost function OutdatedHistory(): seq<Change> {
    [Put("a", 1, Some("old")), Put("a", 2, None), Put("a", 3, Some("new"))]
  }

  ghost function OutdatedFeed(): Feed {
    Feed(OutdatedHistory(), 0, [], n => true)
  }

  ghost function OutdatedSteps(): seq<Step> {
    var a1, a2, a3 := Object(Some("a"), Some(1), Some("old")), Object(Some("a"), Some(2), None),
                      Object(Some("a"), Some(3), Some("new"));
    [Handle(Event(None, Some(a1), true))] + [Finish(0, WaitSucceeded)]
    + [Handle(Event(Some(a1), Some(a2), true))] + [Handle(Event(Some(a2), Some(a3), true))]
  }

  ghost const OUTDATED := State(true, Cache({"a"}, 3),
                                Registry(map["a" := 0], [CheckerState("a", "old", false, false, Running)]))

  lemma OutdatedRun()
    ensures Run(OutdatedSteps()) == OUTDATED
  {
    var steps := OutdatedSteps();
    var t1, t2, t3 := steps[..1], steps[..2], steps[..3];
    RunExtended([], steps[0]);
    RunExtended(t1, steps[1]);
    RunExtended(t2, steps[2]);
    RunExtended(t3, steps[3]);
    assert [] + [steps[0]] == t1 && t1 + [steps[1]] == t2 && t2 + [steps[2]] == t3 && t3 + [steps[3]] == steps;
    assert Run(t1).registry == Registry(map["a" := 0], [CheckerState("a", "old", false, false, Unknown)]);
    assert Run(t2).registry == OUTDATED.registry;
    assert Run(t3) == State(true, Cache({"a"}, 2), OUTDATED.registry);
  }

  lemma OutdatedEvents()
    ensures
      var steps := OutdatedSteps();
      EventsOf(steps) == [steps[0].event, steps[2].event, steps[3].event]
  {
    var steps := OutdatedSteps();
    var t1, t2, t3 := steps[..1], steps[..2], steps[..3];
    assert t3[..2] == t2 && t2[..1] == t1 && t1[..0] == [];
    assert EventsOf(t1) == [steps[0].event] && EventsOf(t2) == EventsOf(t1);
    assert EventsOf(t3) == [steps[0].event, steps[2].event];
  }

  lemma OutdatedStores()
    ensures
      var h := OutdatedHistory();
      && StoreAfter(h, 0) == map[]
      && StoreAfter(h, 1) == map["a" := Stored(1, Some("old"))]
      && StoreAfter(h, 2) == map["a" := Stored(2, None)]
      && StoreAfter(h, 3) == map["a" := Stored(3, Some("new"))]
  {
  }

  lemma OutdatedIsFed()
    ensures ValidFeed(OutdatedFeed()) && FedBy(OutdatedFeed(), EventsOf(OutdatedSteps()))
  {
    var f, steps := OutdatedFeed(), OutdatedSteps();
    OutdatedStores();
    OutdatedEvents();
    assert ValidFeed(f);
    assert EventAt(f, 0) == steps[0].event && EventAt(f, 1) == steps[2].event && EventAt(f, 2) == steps[3].event;
  }

  /** All specs but one readable, and a success: the pods seen running are those of the old spec. */
  lemma OutdatedSuccess()
    ensures ValidFeed(OutdatedFeed()) && FedBy(OutdatedFeed(), EventsOf(OutdatedSteps()))
    ensures Gathered(Run(OutdatedSteps()), {"a"}, 3) == Success
    ensures StoreAfter(OutdatedHistory(), 3)["a"] == Stored(3, Some("new"))
    ensures EntryOf(Run(OutdatedSteps()).registry, "a") == Some(Entry("old", false))
  {
    OutdatedIsFed();
    OutdatedStores();
    OutdatedRun();
    assert Statuses(OUTDATED.registry) == map["a" := Running];
    OneRunning("a");
  }
}
