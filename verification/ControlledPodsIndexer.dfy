/** The index of pods by controller, and the ReplicaSets it holds back until their pods are gone.

    Pods live in the pod informer's store, which changes before its notifications are delivered.
    ReplicaSets are copied from notifications into a store of the index's own.
 */
module ControlledPodsIndexers {
  import opened Basics
  import opened Options

  datatype Pod = Pod(key: string, controller: Option<string>, content: string)

  datatype ReplicaSet = ReplicaSet(uid: string, controller: Option<string>)

  datatype Index = Index(pods: map<string, Pod>, replicaSets: map<string, ReplicaSet>, pending: set<string>)

  /** The controller's UID as the handlers read it: empty when there is no controller. */
  function ControllerUID(controller: Option<string>): string {
    if controller.Some? then controller.value else ""
  }

  predicate Controls(uid: string, pod: Pod) {
    pod.controller == Some(uid)
  }

  ghost predicate HasPods(pods: map<string, Pod>, uid: string) {
    exists k :: k in pods && Controls(uid, pods[k])
  }

  // ---------- the handlers on values ----------

  /** The first half of clearing a ReplicaSet: unless it is still needed, it is no longer pending. */
  ghost predicate Clearable(i: Index, uid: string) {
    uid in i.pending && !HasPods(i.pods, uid)
  }

  ghost function Unlisted(i: Index, uid: string): Index {
    if Clearable(i, uid) then i.(pending := i.pending - {uid}) else i
  }

  /** The whole of it. */
  ghost function Cleared(i: Index, uid: string): Index {
    if Clearable(i, uid) then Unlisted(i, uid).(replicaSets := i.replicaSets - {uid}) else i
  }

  /** The owner a pod notification lets go, if any. */
  datatype PodNote = PodUpdated(oldPod: Pod, newPod: Pod) | PodDeleted(pod: Pod)

  function Released(n: PodNote): Option<string> {
    match n
    case PodUpdated(oldPod, newPod) =>
      if ControllerUID(oldPod.controller) == ControllerUID(newPod.controller) then None
      else Some(ControllerUID(oldPod.controller))
    case PodDeleted(pod) => Some(ControllerUID(pod.controller))
  }

  datatype RsNote = RsAdded(rs: ReplicaSet) | RsUpdated(rs: ReplicaSet) | RsDeleted(rs: ReplicaSet)

  // ---------- all interleavings ----------

  /** Between a handler's check for pods and its removal of the ReplicaSet it holds the lock, but
      the pod store keeps changing. */
  datatype Removal = Removal(uid: string, byPodHandler: bool)

  datatype System = System(index: Index, podNotes: seq<PodNote>, rsHandled: nat, removal: Option<Removal>)

  datatype Action =
    | StorePod(pod: Pod)
    | RemovePod(key: string)
    | HandlePodNote
    | HandleRsNote
    | FinishRemoval

  datatype Phase = Unborn | Live | Gone

  /** Where a UID stands after the first `n` ReplicaSet notifications. */
  ghost function PhaseAfter(notes: seq<RsNote>, n: nat, uid: string): Phase
    requires n <= |notes|
  {
    if n == 0 then Unborn
    else if notes[n - 1].rs.uid != uid then PhaseAfter(notes, n - 1, uid)
    else if notes[n - 1].RsDeleted? then Gone
    else Live
  }

  /** Per UID, which is not empty: added once, then updated, then deleted once. */
  ghost predicate WellOrdered(notes: seq<RsNote>) {
    forall i :: 0 <= i < |notes| ==> InOrder(notes, i)
  }

  ghost predicate InOrder(notes: seq<RsNote>, i: nat)
    requires i < |notes|
  {
    && notes[i].rs.uid != ""
    && PhaseAfter(notes, i, notes[i].rs.uid) == if notes[i].RsAdded? then Unborn else Live
  }

  lemma {:induction false} KnownUID(notes: seq<RsNote>, n: nat, uid: string)
    requires WellOrdered(notes) && n <= |notes| && PhaseAfter(notes, n, uid) != Unborn
    ensures uid != ""
  {
    assert InOrder(notes, n - 1);
    if notes[n - 1].rs.uid != uid {
      KnownUID(notes, n - 1, uid);
    }
  }

  ghost const EMPTY := System(Index(map[], map[], {}), [], 0, None)

  ghost predicate Enabled(notes: seq<RsNote>, s: System, a: Action) {
    match a
    case StorePod(_) => true
    case RemovePod(key) => key in s.index.pods
    case HandlePodNote =>
      s.podNotes != [] && (s.removal.None? || (!s.removal.value.byPodHandler && Released(s.podNotes[0]).None?))
    case HandleRsNote =>
      s.rsHandled < |notes| &&
      (s.removal.None? || (s.removal.value.byPodHandler && !notes[s.rsHandled].RsDeleted?))
    case FinishRemoval => s.removal.Some?
  }

  /** A handler holding the lock checks whether `uid` can be cleared. */
  ghost function Checked(s: System, uid: string, byPodHandler: bool): System {
    s.(index := Unlisted(s.index, uid),
       removal := if Clearable(s.index, uid) && uid in s.index.replicaSets
                  then Some(Removal(uid, byPodHandler)) else None)
  }

  ghost function Next(notes: seq<RsNote>, s: System, a: Action): System
    requires Enabled(notes, s, a)
  {
    match a
    case StorePod(pod) =>
      var notified := if pod.key in s.index.pods then [PodUpdated(s.index.pods[pod.key], pod)] else [];
      s.(index := s.index.(pods := s.index.pods[pod.key := pod]), podNotes := s.podNotes + notified)
    case RemovePod(key) =>
      s.(index := s.index.(pods := s.index.pods - {key}),
         podNotes := s.podNotes + [PodDeleted(s.index.pods[key])])
    case HandlePodNote =>
      var released, s' := Released(s.podNotes[0]), s.(podNotes := s.podNotes[1..]);
      if released.None? then s' else Checked(s', released.value, true)
    case HandleRsNote =>
      var note, s' := notes[s.rsHandled], s.(rsHandled := s.rsHandled + 1);
      if note.RsDeleted? then
        Checked(s'.(index := s.index.(pending := s.index.pending + {note.rs.uid})), note.rs.uid, false)
      else
        s'.(index := s.index.(replicaSets := s.index.replicaSets[note.rs.uid := note.rs]))
    case FinishRemoval =>
      s.(index := s.index.(replicaSets := s.index.replicaSets - {s.removal.value.uid}), removal := None)
  }

  /** Undisturbed, a check and the removal it leads to are what the handlers compute. */
  lemma UndisturbedClearing(notes: seq<RsNote>, s: System, uid: string, byPodHandler: bool)
    requires s.removal.None?
    ensures
      var checked := Checked(s, uid, byPodHandler);
      Cleared(s.index, uid) ==
      if checked.removal.Some? then Next(notes, checked, FinishRemoval).index else checked.index
  {
    if uid !in s.index.replicaSets {
      assert s.index.replicaSets - {uid} == s.index.replicaSets;
    }
  }

  // ---------- what every step keeps ----------

  ghost predicate Removing(s: System, uid: string) {
    s.removal.Some? && s.removal.value.uid == uid
  }

  /** A ReplicaSet is in the index while it lives and, once deleted, while it is pending or being
      removed; only deleted ones are pending. */
  ghost predicate PhasesRespected(notes: seq<RsNote>, s: System) {
    && s.rsHandled <= |notes|
    && forall uid ::
         var phase := PhaseAfter(notes, s.rsHandled, uid);
         && (uid in s.index.replicaSets <==> phase == Live || uid in s.index.pending || Removing(s, uid))
         && (uid in s.index.pending || Removing(s, uid) ==> phase == Gone)
         && (Removing(s, uid) ==> uid !in s.index.pending)
  }

  /** A pending ReplicaSet still has pods, or a notification under way that will check again. */
  ghost predicate PendingHasReason(s: System, uid: string) {
    || HasPods(s.index.pods, uid)
    || Releases(s.podNotes, uid)
  }

  ghost predicate Releases(podNotes: seq<PodNote>, uid: string) {
    exists i :: 0 <= i < |podNotes| && Released(podNotes[i]) == Some(uid)
  }

  ghost predicate PendingReasons(s: System) {
    forall uid :: uid in s.index.pending ==> PendingHasReason(s, uid)
  }

  ghost predicate KeysMatch(i: Index) {
    && (forall k :: k in i.pods ==> i.pods[k].key == k)
    && (forall u :: u in i.replicaSets ==> i.replicaSets[u].uid == u)
  }

  ghost predicate Invariant(notes: seq<RsNote>, s: System) {
    PhasesRespected(notes, s) && PendingReasons(s) && KeysMatch(s.index)
  }

  lemma NextKeepsPhases(notes: seq<RsNote>, s: System, a: Action)
    requires WellOrdered(notes) && PhasesRespected(notes, s) && Enabled(notes, s, a)
    ensures PhasesRespected(notes, Next(notes, s, a))
  {
    if a.HandleRsNote? {
      assert InOrder(notes, s.rsHandled);
    }
  }

  /** A store change that takes the last pod from `uid` announces it. */
  lemma ReleaseAnnounced(s: System, a: Action, notes: seq<RsNote>, uid: string)
    requires uid != "" && (a.StorePod? || a.RemovePod?) && Enabled(notes, s, a) && PendingHasReason(s, uid)
    ensures PendingHasReason(Next(notes, s, a), uid)
  {
    var s' := Next(notes, s, a);
    if Releases(s.podNotes, uid) {
      var i :| 0 <= i < |s.podNotes| && Released(s.podNotes[i]) == Some(uid);
      assert s'.podNotes[i] == s.podNotes[i];
    } else {
      var k :| k in s.index.pods && Controls(uid, s.index.pods[k]);
      var changed := if a.StorePod? then a.pod.key else a.key;
      if k != changed {
        assert k in s'.index.pods && s'.index.pods[k] == s.index.pods[k];
      } else if a.StorePod? && Controls(uid, a.pod) {
        assert s'.index.pods[k] == a.pod;
      } else {
        assert Released(s'.podNotes[|s.podNotes|]) == Some(uid);
      }
    }
  }

  lemma NoteHandled(s: System, notes: seq<RsNote>, uid: string)
    requires Enabled(notes, s, HandlePodNote) && PendingHasReason(s, uid)
    requires uid in Next(notes, s, HandlePodNote).index.pending
    ensures PendingHasReason(Next(notes, s, HandlePodNote), uid)
  {
    if Releases(s.podNotes, uid) {
      var i :| 0 <= i < |s.podNotes| && Released(s.podNotes[i]) == Some(uid);
      assert i > 0 ==> s.podNotes[1..][i - 1] == s.podNotes[i];
    }
  }

  lemma NextKeepsReasons(notes: seq<RsNote>, s: System, a: Action)
    requires WellOrdered(notes) && PhasesRespected(notes, s) && PendingReasons(s) && Enabled(notes, s, a)
    ensures PendingReasons(Next(notes, s, a))
  {
    var s' := Next(notes, s, a);
    forall uid | uid in s'.index.pending ensures PendingHasReason(s', uid) {
      if a.StorePod? || a.RemovePod? {
        KnownUID(notes, s.rsHandled, uid);
        ReleaseAnnounced(s, a, notes, uid);
      } else if a.HandlePodNote? {
        NoteHandled(s, notes, uid);
      }
    }
  }

  lemma NextKeepsKeysMatch(notes: seq<RsNote>, s: System, a: Action)
    requires KeysMatch(s.index) && Enabled(notes, s, a)
    ensures KeysMatch(Next(notes, s, a).index)
  {
  }

  // ---------- runs ----------

  /** A run from the empty index: `states[i + 1]` follows from `states[i]` by `actions[i]`. */
  ghost predicate IsRun(notes: seq<RsNote>, actions: seq<Action>, states: seq<System>) {
    && |states| == |actions| + 1
    && states[0] == EMPTY
    && forall i :: 0 <= i < |actions| ==>
         Enabled(notes, states[i], actions[i]) && states[i + 1] == Next(notes, states[i], actions[i])
  }

  lemma {:induction false} RunKeepsInvariant(notes: seq<RsNote>, actions: seq<Action>, states: seq<System>, n: nat)
    requires WellOrdered(notes) && IsRun(notes, actions, states) && n < |states|
    ensures Invariant(notes, states[n])
  {
    if n == 0 {
    } else {
      RunKeepsInvariant(notes, actions, states, n - 1);
      NextKeepsPhases(notes, states[n - 1], actions[n - 1]);
      NextKeepsReasons(notes, states[n - 1], actions[n - 1]);
      NextKeepsKeysMatch(notes, states[n - 1], actions[n - 1]);
    }
  }

  /** A removal goes back to one check, at which no pod was stored under the ReplicaSet. */
  lemma {:induction false} CheckBefore(notes: seq<RsNote>, actions: seq<Action>, states: seq<System>, n: nat, uid: string)
    returns (m: nat)
    requires IsRun(notes, actions, states) && n < |states| && Removing(states[n], uid)
    ensures m < n && states[m].removal.None? && !HasPods(states[m].index.pods, uid)
    ensures states[m + 1].index.pods == states[m].index.pods
    ensures forall i :: m < i <= n ==> Removing(states[i], uid)
  {
    if n == 0 {
      assert false;
    } else if states[n - 1].removal.None? {
      assert states[n] == Next(notes, states[n - 1], actions[n - 1]);
      m := n - 1;
    } else {
      assert states[n] == Next(notes, states[n - 1], actions[n - 1]);
      m := CheckBefore(notes, actions, states, n - 1, uid);
    }
  }

  /** A pod under the ReplicaSet during its removal was stored, as it is, after the check. */
  lemma {:induction false} StoredSinceCheck(notes: seq<RsNote>, actions: seq<Action>, states: seq<System>,
                                            m: nat, n: nat, uid: string, k: string) returns (j: nat)
    requires IsRun(notes, actions, states) && m < n < |states| && !HasPods(states[m + 1].index.pods, uid)
    requires k in states[n].index.pods && Controls(uid, states[n].index.pods[k])
    ensures m < j < n && actions[j] == StorePod(states[n].index.pods[k])
  {
    if n == m + 1 {
      assert false;
    } else {
      var a := actions[n - 1];
      assert states[n] == Next(notes, states[n - 1], a);
      if a.StorePod? && a.pod.key == k {
        j := n - 1;
      } else {
        j := StoredSinceCheck(notes, actions, states, m, n - 1, uid, k);
      }
    }
  }

  /** Action `j` stored a pod under `uid` that is still there in `s`. */
  ghost predicate StoresFor(a: Action, uid: string, s: System) {
    && a.StorePod? && Controls(uid, a.pod)
    && a.pod.key in s.index.pods && s.index.pods[a.pod.key] == a.pod
  }

  /** Postponed deletion, on every interleaving: pending ReplicaSets are always in the index, and
      one leaves the index only after its deletion was handled and a check, after action `m`, found no
      pod under it. It leaves a pod behind exactly when one was stored under it between the check and
      the removal and is still there. */
  lemma LeavesOnlyWhenDone(notes: seq<RsNote>, actions: seq<Action>, states: seq<System>, n: nat, uid: string)
    returns (m: nat)
    requires WellOrdered(notes) && IsRun(notes, actions, states) && n < |actions|
    ensures states[n].index.pending <= states[n].index.replicaSets.Keys
    ensures
      uid in states[n].index.replicaSets && uid !in states[n + 1].index.replicaSets ==>
      && actions[n].FinishRemoval?
      && states[n].rsHandled <= |notes| && PhaseAfter(notes, states[n].rsHandled, uid) == Gone
      && m < n && states[m].removal.None? && Removing(states[m + 1], uid) && !HasPods(states[m].index.pods, uid)
      && (HasPods(states[n + 1].index.pods, uid) <==>
           exists j :: m < j < n && StoresFor(actions[j], uid, states[n + 1]))
  {
    RunKeepsInvariant(notes, actions, states, n);
    assert states[n + 1] == Next(notes, states[n], actions[n]);
    m := 0;
    if uid in states[n].index.replicaSets && uid !in states[n + 1].index.replicaSets {
      m := CheckBefore(notes, actions, states, n, uid);
      if k :| k in states[n].index.pods && Controls(uid, states[n].index.pods[k]) {
        var j := StoredSinceCheck(notes, actions, states, m, n, uid, k);
        assert StoresFor(actions[j], uid, states[n + 1]) by {
          assert states[n].index.pods[k].key == k;
        }
      }
    }
  }

  /** That window is real: a pod stored between the check and the removal is left without its
      ReplicaSet in the index. */
  lemma LatePodLosesReplicaSet()
    ensures
      var rs, pod := ReplicaSet("rs", Some("deployment")), Pod("pod", Some("rs"), "");
      var notes := [RsAdded(rs), RsDeleted(rs)];
      var actions := [HandleRsNote, HandleRsNote, StorePod(pod), FinishRemoval];
      && WellOrdered(notes)
      && exists states: seq<System> ::
           && IsRun(notes, actions, states)
           && HasPods(states[4].index.pods, "rs") && "rs" !in states[4].index.replicaSets
  {
    var rs, pod := ReplicaSet("rs", Some("deployment")), Pod("pod", Some("rs"), "");
    var notes := [RsAdded(rs), RsDeleted(rs)];
    var actions := [HandleRsNote, HandleRsNote, StorePod(pod), FinishRemoval];
    var s1 := System(Index(map[], map["rs" := rs], {}), [], 1, None);
    var s2 := System(Index(map[], map["rs" := rs], {}), [], 2, Some(Removal("rs", false)));
    var s3 := System(Index(map["pod" := pod], map["rs" := rs], {}), [], 2, Some(Removal("rs", false)));
    var s4 := System(Index(map["pod" := pod], map[], {}), [], 2, None);
    var states := [EMPTY, s1, s2, s3, s4];
    assert InOrder(notes, 0) && InOrder(notes, 1);
    assert s1 == Next(notes, EMPTY, HandleRsNote);
    assert s2 == Next(notes, s1, HandleRsNote) by {
      assert Clearable(Index(map[], map["rs" := rs], {"rs"}), "rs");
    }
    assert map[]["pod" := pod] == map["pod" := pod];
    assert s3 == Next(notes, s2, StorePod(pod));
    assert s4 == Next(notes, s3, FinishRemoval);
    assert IsRun(notes, actions, states);
    assert Controls("rs", s4.index.pods["pod"]);
  }

  /** Once both queues have drained, every ReplicaSet in the index lives or has a stored pod. */
  lemma DrainedHoldsNoneBack(notes: seq<RsNote>, actions: seq<Action>, states: seq<System>, n: nat, uid: string)
    requires WellOrdered(notes) && IsRun(notes, actions, states) && n < |states|
    requires states[n].podNotes == [] && states[n].rsHandled == |notes| && states[n].removal.None?
    ensures uid in states[n].index.replicaSets ==>
      PhaseAfter(notes, |notes|, uid) == Live || HasPods(states[n].index.pods, uid)
  {
    RunKeepsInvariant(notes, actions, states, n);
  }

  /** A ReplicaSet with pods stays: from a state where it is indexed and not being removed, for as
      long as some stored pod is under it. */
  lemma {:induction false} HeldBackWhilePodsRemain(notes: seq<RsNote>, actions: seq<Action>, states: seq<System>,
                                                   m: nat, n: nat, uid: string)
    requires WellOrdered(notes) && IsRun(notes, actions, states) && m <= n < |states|
    requires uid in states[m].index.replicaSets && !Removing(states[m], uid)
    requires forall i :: m <= i <= n ==> HasPods(states[i].index.pods, uid)
    ensures uid in states[n].index.replicaSets && !Removing(states[n], uid)
  {
    if m == n {
    } else {
      HeldBackWhilePodsRemain(notes, actions, states, m, n - 1, uid);
      assert HasPods(states[n - 1].index.pods, uid);
    }
  }

  // ---------- looking pods up ----------

  /** The UIDs whose pods count as those of the given object. */
  ghost function Owners(i: Index, kind: string, uid: string): set<string> {
    if kind == "Deployment" then set u | u in i.replicaSets && i.replicaSets[u].controller == Some(uid)
    else {uid}
  }

  /** What a scan of the whole pod store finds. */
  ghost function Scan(pods: map<string, Pod>, owners: set<string>): set<Pod> {
    set k | k in pods && pods[k].controller.Some? && pods[k].controller.value in owners :: pods[k]
  }

  /** The pods of a deleted ReplicaSet are found under its Deployment for as long as there are any. */
  lemma HeldBackPodsAreFound(notes: seq<RsNote>, actions: seq<Action>, states: seq<System>,
                             m: nat, n: nat, uid: string, deployment: string, k: string)
    requires WellOrdered(notes) && IsRun(notes, actions, states) && m <= n < |states|
    requires uid in states[m].index.replicaSets && !Removing(states[m], uid)
    requires forall i :: m <= i <= n ==> HasPods(states[i].index.pods, uid)
    requires uid in states[n].index.replicaSets ==> states[n].index.replicaSets[uid].controller == Some(deployment)
    requires k in states[n].index.pods && Controls(uid, states[n].index.pods[k])
    ensures states[n].index.pods[k] in Scan(states[n].index.pods, Owners(states[n].index, "Deployment", deployment))
  {
    HeldBackWhilePodsRemain(notes, actions, states, m, n, uid);
  }

  class ControlledPodsIndexer {
    var podsIndexer: map<string, Pod>
    var rsIndexer: map<string, ReplicaSet>
    var rsPendingDeletion: set<string>

    ghost function View(): Index
      reads this
    {
      Index(podsIndexer, rsIndexer, rsPendingDeletion)
    }

    constructor (pods: map<string, Pod>)
      ensures View() == Index(pods, map[], {})
    {
      podsIndexer, rsIndexer, rsPendingDeletion := pods, map[], {};
    }

    method OnPodUpdate(oldPod: Pod, newPod: Pod)
      requires KeysMatch(View())
      modifies this
      ensures
        var released := Released(PodUpdated(oldPod, newPod));
        View() == if released.None? then old(View()) else Cleared(old(View()), released.value)
    {
      if ControllerUID(oldPod.controller) != ControllerUID(newPod.controller) {
        ClearRSDataIfPossible(ControllerUID(oldPod.controller));
      }
    }

    method OnPodDelete(pod: Pod)
      requires KeysMatch(View())
      modifies this
      ensures View() == Cleared(old(View()), Released(PodDeleted(pod)).value)
    {
      ClearRSDataIfPossible(ControllerUID(pod.controller));
    }

    method OnReplicaSetAddOrUpdate(rs: ReplicaSet)
      modifies this`rsIndexer
      ensures rsIndexer == old(rsIndexer)[rs.uid := rs]
    {
      rsIndexer := rsIndexer[rs.uid := rs];
    }

    method OnReplicaSetDelete(rs: ReplicaSet)
      requires KeysMatch(View())
      modifies this
      ensures View() == Cleared(old(View()).(pending := old(rsPendingDeletion) + {rs.uid}), rs.uid)
    {
      rsPendingDeletion := rsPendingDeletion + {rs.uid};
      ClearRSDataIfPossible(rs.uid);
    }

    /** Forgets a deleted ReplicaSet once no pod refers to it. */
    method ClearRSDataIfPossible(rsUID: string)
      requires KeysMatch(View())
      modifies this
      ensures View() == Cleared(old(View()), rsUID)
    {
      if rsUID !in rsPendingDeletion {
        return;
      }
      var pods := AppendPodsControlledBy(podsIndexer, [], rsUID);
      if pods != [] {
        assert pods[0] in Scan(podsIndexer, {rsUID});
        return;
      }
      assert Scan(podsIndexer, {rsUID}) == {};
      assert forall k :: k in podsIndexer && Controls(rsUID, podsIndexer[k]) ==>
        podsIndexer[k] in Scan(podsIndexer, {rsUID});
      rsPendingDeletion := rsPendingDeletion - {rsUID};
      if rsUID !in rsIndexer {
        assert rsIndexer - {rsUID} == rsIndexer;
        return;
      }
      rsIndexer := rsIndexer - {rsUID};
    }

    /** The pods of one owner, in whatever order the store yields them, after those already found. */
    static method AppendPodsControlledBy(pods: map<string, Pod>, found: seq<Pod>, uid: string) returns (res: seq<Pod>)
      requires forall k :: k in pods ==> pods[k].key == k
      ensures |found| <= |res| && res[..|found|] == found
      ensures Distinct(res[|found|..])
      ensures forall p :: p in res[|found|..] <==> p.key in pods && pods[p.key] == p && p.controller == Some(uid)
      ensures (set p | p in res[|found|..]) == Scan(pods, {uid})
    {
      ghost var added: seq<Pod> := [];
      res := found;
      var todo := pods.Keys;
      while todo != {}
        invariant todo <= pods.Keys
        invariant res == found + added && Distinct(added)
        invariant forall p :: p in added <==> p.key in pods.Keys - todo && p == pods[p.key] && Controls(uid, p)
        decreases todo
      {
        var k :| k in todo;
        if pods[k].controller == Some(uid) {
          res, added := res + [pods[k]], added + [pods[k]];
        }
        todo := todo - {k};
      }
      assert res[|found|..] == added;
    }

    /** The pods of an object. The owners are read first; then `podsAt(i)` is the pod store, which may
        have changed meanwhile, when the i-th of them is looked up. */
    method PodsControlledBy(kind: string, uid: string, podsAt: nat -> map<string, Pod>) returns (res: seq<Pod>)
      requires forall i: nat, k :: k in podsAt(i) ==> podsAt(i)[k].key == k
      ensures Distinct(res)
      ensures exists order :: Orders(order, Owners(View(), kind, uid)) && forall p :: p in res <==> FoundIn(podsAt, order, p)
    {
      var podOwners: set<string>;
      if kind == "Deployment" {
        podOwners := set u | u in rsIndexer && rsIndexer[u].controller == Some(uid);
      } else {
        podOwners := {uid};
      }
      res := [];
      ghost var order := [];
      var i, todo := 0, podOwners;
      while todo != {}
        invariant todo <= podOwners && i == |order|
        invariant Orders(order, podOwners - todo)
        invariant Distinct(res) && forall p :: p in res <==> FoundIn(podsAt, order, p)
        decreases todo
      {
        var owner :| owner in todo;
        ghost var before := res;
        res := AppendPodsControlledBy(podsAt(i), res, owner);
        FoundNext(podsAt, order, owner, before, res);
        i, order, todo := i + 1, order + [owner], todo - {owner};
      }
      assert Orders(order, Owners(View(), kind, uid));
    }
  }

  /** The owners, each once, in some order. */
  ghost predicate Orders(order: seq<string>, owners: set<string>) {
    Distinct(order) && forall u :: u in order <==> u in owners
  }

  ghost predicate FoundAt(podsAt: nat -> map<string, Pod>, order: seq<string>, i: nat, p: Pod)
    requires i < |order|
  {
    p in Scan(podsAt(i), {order[i]})
  }

  /** The pod was stored under some owner when that one's pods were looked up. */
  ghost predicate FoundIn(podsAt: nat -> map<string, Pod>, order: seq<string>, p: Pod) {
    exists i: nat :: i < |order| && FoundAt(podsAt, order, i, p)
  }

  lemma FoundExtended(podsAt: nat -> map<string, Pod>, order: seq<string>, owner: string, p: Pod)
    ensures FoundIn(podsAt, order + [owner], p) <==> FoundIn(podsAt, order, p) || p in Scan(podsAt(|order|), {owner})
  {
    var all := order + [owner];
    if i: nat :| i < |order| && FoundAt(podsAt, order, i, p) {
      assert FoundAt(podsAt, all, i, p);
    }
    if p in Scan(podsAt(|order|), {owner}) {
      assert FoundAt(podsAt, all, |order|, p);
    }
    if i: nat :| i < |all| && FoundAt(podsAt, all, i, p) {
      assert i < |order| ==> FoundAt(podsAt, order, i, p);
    }
  }

  /** Pods found for different owners are different pods, whenever they were found. */
  lemma FoundNext(podsAt: nat -> map<string, Pod>, order: seq<string>, owner: string, before: seq<Pod>, res: seq<Pod>)
    requires owner !in order
    requires Distinct(before) && forall p :: p in before <==> FoundIn(podsAt, order, p)
    requires |before| <= |res| && res[..|before|] == before
    requires Distinct(res[|before|..]) && (set p | p in res[|before|..]) == Scan(podsAt(|order|), {owner})
    ensures Distinct(res) && forall p :: p in res <==> FoundIn(podsAt, order + [owner], p)
  {
    var added := res[|before|..];
    assert res == before + added;
    forall p ensures p in added <==> p in Scan(podsAt(|order|), {owner}) {
      assert p in added <==> p in (set q | q in added);
    }
    forall i, j | 0 <= i < |before| && 0 <= j < |added| ensures before[i] != added[j] {
      assert added[j] in Scan(podsAt(|order|), {owner}) && FoundIn(podsAt, order, before[i]);
    }
    forall p ensures p in res <==> FoundIn(podsAt, order + [owner], p) {
      FoundExtended(podsAt, order, owner, p);
    }
  }

  /** Whose pods a lookup is for: the object's own or, for a Deployment, those of the indexed
      ReplicaSets that it controls. */
  ghost predicate BelongsTo(i: Index, kind: string, uid: string, p: Pod) {
    && p.controller.Some?
    && if kind == "Deployment" then
         p.controller.value in i.replicaSets && i.replicaSets[p.controller.value].controller == Some(uid)
       else
         p.controller.value == uid
  }

  /** While nothing changes, exactly the stored pods of the object are found, as a full scan would. */
  lemma QuietLookup(podsAt: nat -> map<string, Pod>, order: seq<string>, i: Index, kind: string, uid: string, p: Pod)
    requires Orders(order, Owners(i, kind, uid)) && KeysMatch(i)
    requires forall n: nat :: n < |order| ==> podsAt(n) == i.pods
    ensures FoundIn(podsAt, order, p) <==> p.key in i.pods && i.pods[p.key] == p && BelongsTo(i, kind, uid, p)
    ensures FoundIn(podsAt, order, p) <==> p in Scan(i.pods, Owners(i, kind, uid))
  {
    if n: nat :| n < |order| && FoundAt(podsAt, order, n, p) {
      assert order[n] in order;
    }
    if BelongsTo(i, kind, uid, p) {
      assert p.controller.value in order;
    }
    if p in Scan(i.pods, Owners(i, kind, uid)) {
      var n: nat :| n < |order| && order[n] == p.controller.value;
      assert FoundAt(podsAt, order, n, p);
    }
  }

  /** While pods change, a pod that stays as it is under an owner is found all the same. */
  lemma SteadyPodIsFound(podsAt: nat -> map<string, Pod>, order: seq<string>, p: Pod)
    requires p.controller.Some? && p.controller.value in order
    requires forall n: nat :: n < |order| ==> p in Scan(podsAt(n), {p.controller.value})
    ensures FoundIn(podsAt, order, p)
  {
    var n: nat :| n < |order| && order[n] == p.controller.value;
    assert FoundAt(podsAt, order, n, p);
  }
}
