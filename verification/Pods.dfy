/** Pod classification and the startup tally. */
module Pods {
  import opened Basics
  import opened Options

  datatype Condition = Condition(kind: string, status: string)

  datatype Pod = Pod(
    namespace: string, name: string, deleting: bool, phase: string, nodeName: string, conditions: seq<Condition>)

  const PENDING := "Pending"
  const RUNNING := "Running"
  const SUCCEEDED := "Succeeded"
  const FAILED := "Failed"
  const UNKNOWN := "Unknown"

  datatype Status =
    | Unknown | Terminating | RunningAndReady | RunningButNotReady | PendingScheduled | PendingNotScheduled | Inactive

  ghost predicate Ready(conditions: seq<Condition>) {
    exists i :: 0 <= i < |conditions| && conditions[i] == Condition("Ready", "True")
  }

  /** What a pod counts as. */
  ghost function PodStatus(p: Pod): Status {
    if p.deleting then Terminating
    else if p.phase == RUNNING then (if Ready(p.conditions) then RunningAndReady else RunningButNotReady)
    else if p.phase == PENDING then (if p.nodeName == "" then PendingNotScheduled else PendingScheduled)
    else if p.phase == SUCCEEDED || p.phase == FAILED then Inactive
    else Unknown
  }

  /** When a pod has which status, one by one. */
  lemma StatusMeans(p: Pod)
    ensures PodStatus(p) == Terminating <==> p.deleting
    ensures PodStatus(p) == RunningAndReady <==>
      !p.deleting && p.phase == "Running" && Condition("Ready", "True") in p.conditions
    ensures PodStatus(p) == RunningButNotReady <==>
      !p.deleting && p.phase == "Running" && Condition("Ready", "True") !in p.conditions
    ensures PodStatus(p) == PendingNotScheduled <==> !p.deleting && p.phase == "Pending" && p.nodeName == ""
    ensures PodStatus(p) == PendingScheduled <==> !p.deleting && p.phase == "Pending" && p.nodeName != ""
    ensures PodStatus(p) == Inactive <==> !p.deleting && (p.phase == "Succeeded" || p.phase == "Failed")
  {
    assert PENDING[0] == 'P' && RUNNING[0] == 'R' && SUCCEEDED[0] == 'S' && FAILED[0] == 'F';
  }

  method IsReady(conditions: seq<Condition>) returns (ready: bool)
    ensures ready <==> Ready(conditions)
  {
    ready := false;
    for i := 0 to |conditions|
      invariant !ready && forall j :: 0 <= j < i ==> conditions[j] != Condition("Ready", "True")
    {
      if conditions[i] == Condition("Ready", "True") {
        return true;
      }
    }
  }

  method ComputePodStatus(p: Pod) returns (status: Status)
    ensures status == PodStatus(p)
  {
    if p.deleting {
      return Terminating;
    }
    if p.phase == RUNNING {
      var ready := IsReady(p.conditions);
      return if ready then RunningAndReady else RunningButNotReady;
    }
    if p.phase == PENDING {
      return if p.nodeName == "" then PendingNotScheduled else PendingScheduled;
    }
    return if p.phase == SUCCEEDED || p.phase == FAILED then Inactive else Unknown;
  }

  // ---------- the startup tally ----------

  datatype StartupStatus = StartupStatus(
    expected: int, terminating: nat, running: nat, scheduled: nat, runningButNotReady: nat, waiting: nat,
    pending: nat, unknown: nat, inactive: nat, created: nat, runningUpdated: nat, lastError: Option<string>)

  /** A check that yields an error for a pod that is not up to date; without one all pods are. */
  type UpdateCheck = Option<Pod -> Option<string>>

  function UpdateError(isPodUpdated: UpdateCheck, p: Pod): Option<string> {
    if isPodUpdated.None? then None else isPodUpdated.value(p)
  }

  /** The classes of pods that are counted. */
  datatype Class =
    | Of(status: Status)
    | InPhaseUnknown
    | OnNode
    | RunningUpdated(isPodUpdated: UpdateCheck)
    | Lagging(isPodUpdated: UpdateCheck) // neither inactive nor running and updated

  ghost predicate Belongs(p: Pod, c: Class) {
    match c
    case Of(status) => PodStatus(p) == status
    case InPhaseUnknown => !p.deleting && p.phase == UNKNOWN
    case OnNode => !p.deleting && p.nodeName != ""
    case RunningUpdated(isPodUpdated) => PodStatus(p) == RunningAndReady && UpdateError(isPodUpdated, p) == None
    case Lagging(isPodUpdated) =>
      PodStatus(p) != Inactive && !(PodStatus(p) == RunningAndReady && UpdateError(isPodUpdated, p) == None)
  }

  ghost function Count(pods: seq<Pod>, c: Class): nat {
    if pods == [] then 0
    else Count(pods[..|pods| - 1], c) + if Belongs(pods[|pods| - 1], c) then 1 else 0
  }

  /** The error of the last pod that runs but is not up to date. */
  ghost function LastUpdateError(pods: seq<Pod>, isPodUpdated: UpdateCheck): Option<string> {
    if pods == [] then None
    else
      var last := pods[|pods| - 1];
      if PodStatus(last) == RunningAndReady && UpdateError(isPodUpdated, last).Some?
      then UpdateError(isPodUpdated, last)
      else LastUpdateError(pods[..|pods| - 1], isPodUpdated)
  }

  /** Every counter is the number of pods of the matching class. */
  ghost predicate Tallies(pods: seq<Pod>, isPodUpdated: UpdateCheck, s: StartupStatus) {
    && s.terminating == Count(pods, Of(Terminating))
    && s.running == Count(pods, Of(RunningAndReady))
    && s.runningButNotReady == Count(pods, Of(RunningButNotReady))
    && s.waiting == Count(pods, Of(PendingNotScheduled))
    && s.pending == Count(pods, Of(PendingScheduled))
    && s.inactive == Count(pods, Of(Inactive))
    && s.unknown == Count(pods, InPhaseUnknown)
    && s.scheduled == Count(pods, OnNode)
    && s.runningUpdated == Count(pods, RunningUpdated(isPodUpdated))
    && s.created + s.terminating == |pods|
    && s.lastError == LastUpdateError(pods, isPodUpdated)
  }

  /** A count is the number of listed pods of the class. */
  lemma {:induction false} CountIsSize(pods: seq<Pod>, c: Class)
    ensures Count(pods, c) == |Members(pods, c)|
  {
    if pods == [] {
    } else {
      CountIsSize(pods[..|pods| - 1], c);
      MembersGrow(pods, c);
    }
  }

  lemma MembersGrow(pods: seq<Pod>, c: Class)
    requires pods != []
    ensures
      var n := |pods| - 1;
      |Members(pods, c)| == |Members(pods[..n], c)| + if Belongs(pods[n], c) then 1 else 0
  {
    var n := |pods| - 1;
    var before := Members(pods[..n], c);
    var last: set<int> := if Belongs(pods[n], c) then {n} else {};
    forall i ensures i in Members(pods, c) <==> i in before + last {
      if 0 <= i < n {
        assert pods[..n][i] == pods[i];
      }
    }
    assert Members(pods, c) == before + last;
  }

  ghost function Members(pods: seq<Pod>, c: Class): set<int> {
    set i | 0 <= i < |pods| && Belongs(pods[i], c)
  }

  /** The classes that are not a status: in phase Unknown and on a node, unless deleting; and running,
      ready and without an error from the check, if there is one. */
  lemma ClassesMean(p: Pod, check: UpdateCheck)
    ensures Belongs(p, InPhaseUnknown) <==> !p.deleting && p.phase == "Unknown"
    ensures Belongs(p, OnNode) <==> !p.deleting && p.nodeName != ""
    ensures Belongs(p, RunningUpdated(check)) <==>
      PodStatus(p) == RunningAndReady && (check.Some? ==> check.value(p).None?)
  {
  }

  /** The error kept is that of the last pod, if any, that runs but fails the check. */
  lemma {:induction false} LastErrorMeans(pods: seq<Pod>, check: UpdateCheck) returns (n: nat)
    ensures LastUpdateError(pods, check).None? ==> forall i :: 0 <= i < |pods| ==> !FailsCheck(pods[i], check)
    ensures LastUpdateError(pods, check).Some? ==>
      && n < |pods| && FailsCheck(pods[n], check) && LastUpdateError(pods, check) == check.value(pods[n])
      && forall i :: n < i < |pods| ==> !FailsCheck(pods[i], check)
  {
    n := 0;
    if pods == [] {
    } else {
      var k := |pods| - 1;
      if FailsCheck(pods[k], check) {
        n := k;
      } else {
        n := LastErrorMeans(pods[..k], check);
      }
    }
  }

  ghost predicate FailsCheck(p: Pod, check: UpdateCheck) {
    PodStatus(p) == RunningAndReady && check.Some? && check.value(p).Some?
  }

  lemma CountExtended(pods: seq<Pod>, p: Pod, c: Class)
    ensures Count(pods + [p], c) == Count(pods, c) + if Belongs(p, c) then 1 else 0
  {
    assert (pods + [p])[..|pods|] == pods;
  }

  /** What one more pod adds to the tally. */
  ghost function Plus(s: StartupStatus, p: Pod, isPodUpdated: UpdateCheck): StartupStatus {
    var status, err := PodStatus(p), UpdateError(isPodUpdated, p);
    s.(terminating := s.terminating + One(status == Terminating),
       running := s.running + One(status == RunningAndReady),
       runningButNotReady := s.runningButNotReady + One(status == RunningButNotReady),
       waiting := s.waiting + One(status == PendingNotScheduled),
       pending := s.pending + One(status == PendingScheduled),
       inactive := s.inactive + One(status == Inactive),
       unknown := s.unknown + One(Belongs(p, InPhaseUnknown)),
       scheduled := s.scheduled + One(Belongs(p, OnNode)),
       runningUpdated := s.runningUpdated + One(Belongs(p, RunningUpdated(isPodUpdated))),
       created := s.created + One(status != Terminating),
       lastError := if status == RunningAndReady && err.Some? then err else s.lastError)
  }

  lemma PlusTallies(pods: seq<Pod>, p: Pod, isPodUpdated: UpdateCheck, s: StartupStatus)
    requires Tallies(pods, isPodUpdated, s)
    ensures Tallies(pods + [p], isPodUpdated, Plus(s, p, isPodUpdated))
  {
    CountExtended(pods, p, Of(Terminating));
    CountExtended(pods, p, Of(RunningAndReady));
    CountExtended(pods, p, Of(RunningButNotReady));
    CountExtended(pods, p, Of(PendingNotScheduled));
    CountExtended(pods, p, Of(PendingScheduled));
    CountExtended(pods, p, Of(Inactive));
    CountExtended(pods, p, InPhaseUnknown);
    CountExtended(pods, p, OnNode);
    CountExtended(pods, p, RunningUpdated(isPodUpdated));
    assert (pods + [p])[..|pods|] == pods;
  }

  /** The branches of the tally for one pod. */
  method TallyPod(s0: StartupStatus, p: Pod, isPodUpdated: UpdateCheck) returns (s: StartupStatus)
    ensures s == Plus(s0, p, isPodUpdated)
  {
    s := s0;
    if p.deleting {
      s := s.(terminating := s.terminating + 1);
      return;
    }
    s := s.(created := s.created + 1);
    if p.phase == RUNNING {
      var ready := IsReady(p.conditions);
      if ready {
        s := s.(running := s.running + 1);
        var err := UpdateError(isPodUpdated, p);
        if err.Some? {
          s := s.(lastError := err);
        } else {
          s := s.(runningUpdated := s.runningUpdated + 1);
        }
      } else {
        s := s.(runningButNotReady := s.runningButNotReady + 1);
      }
    } else if p.phase == PENDING {
      if p.nodeName == "" {
        s := s.(waiting := s.waiting + 1);
      } else {
        s := s.(pending := s.pending + 1);
      }
    } else if p.phase == SUCCEEDED || p.phase == FAILED {
      s := s.(inactive := s.inactive + 1);
    } else if p.phase == UNKNOWN {
      s := s.(unknown := s.unknown + 1);
    }
    if p.nodeName != "" {
      s := s.(scheduled := s.scheduled + 1);
    }
  }

  /** The tally refines the classification. */
  method ComputePodsStartupStatus(pods: seq<Pod>, expected: int, isPodUpdated: UpdateCheck)
    returns (s: StartupStatus)
    ensures s.expected == expected
    ensures Tallies(pods, isPodUpdated, s)
  {
    s := StartupStatus(expected, 0, 0, 0, 0, 0, 0, 0, 0, 0, 0, None);
    for i := 0 to |pods|
      invariant s.expected == expected && Tallies(pods[..i], isPodUpdated, s)
    {
      PlusTallies(pods[..i], pods[i], isPodUpdated, s);
      assert pods[..i + 1] == pods[..i] + [pods[i]];
      s := TallyPod(s, pods[i], isPodUpdated);
    }
    assert pods[..|pods|] == pods;
  }

  predicate IsStandardPhase(phase: string) {
    phase == PENDING || phase == RUNNING || phase == SUCCEEDED || phase == FAILED || phase == UNKNOWN
  }

  /** The Unknown counter misses exactly the pods whose phase is none of the standard ones. */
  lemma {:induction false} UnknownAgreesIff(pods: seq<Pod>)
    ensures Count(pods, InPhaseUnknown) <= Count(pods, Of(Unknown))
    ensures Count(pods, InPhaseUnknown) == Count(pods, Of(Unknown)) <==>
      forall i :: 0 <= i < |pods| ==> pods[i].deleting || IsStandardPhase(pods[i].phase)
  {
    if pods == [] {
    } else {
      var n := |pods| - 1;
      UnknownAgreesIff(pods[..n]);
      assert forall i :: 0 <= i < n ==> pods[..n][i] == pods[i];
    }
  }

  /** A pod whose phase is not a standard one has the status but is not counted. */
  lemma UnknownUncounted(p: Pod)
    requires !p.deleting && !IsStandardPhase(p.phase)
    ensures Count([p], Of(Unknown)) == 1 && Count([p], InPhaseUnknown) == 0
  {
    CountExtended([], p, Of(Unknown));
    CountExtended([], p, InPhaseUnknown);
    assert [] + [p] == [p];
  }

  /** Every pod has one status. */
  lemma {:induction false} StatusesPartition(pods: seq<Pod>)
    ensures |pods| == Count(pods, Of(Unknown)) + Count(pods, Of(Terminating)) + Count(pods, Of(RunningAndReady))
                    + Count(pods, Of(RunningButNotReady)) + Count(pods, Of(PendingScheduled))
                    + Count(pods, Of(PendingNotScheduled)) + Count(pods, Of(Inactive))
  {
    if pods == [] {
    } else {
      StatusesPartition(pods[..|pods| - 1]);
    }
  }

  // ---------- pod infos ----------

  datatype PodInfo = PodInfo(name: string, hostname: string, phase: string, status: Status, namespace: string)

  ghost function InfoOf(p: Pod): PodInfo {
    PodInfo(p.name, p.nodeName, p.phase, PodStatus(p), p.namespace)
  }

  ghost function InfosOf(pods: seq<Pod>): seq<PodInfo> {
    seq(|pods|, i requires 0 <= i < |pods| => InfoOf(pods[i]))
  }

  /** The infos of the pods that are not running and ready, in order. */
  ghost function Unready(info: seq<PodInfo>): seq<PodInfo> {
    if info == [] then []
    else Unready(info[..|info| - 1]) + if info[|info| - 1].status == RunningAndReady then [] else [info[|info| - 1]]
  }

  /** Each pod appears among the unready ones exactly if it is not running and ready. */
  lemma {:induction false} UnreadyMembers(info: seq<PodInfo>, x: PodInfo)
    ensures x in Unready(info) <==> x in info && x.status != RunningAndReady
  {
    if info == [] {
    } else {
      UnreadyMembers(info[..|info| - 1], x);
      assert info == info[..|info| - 1] + [info[|info| - 1]];
    }
  }

  /** Splitting a list splits its unready pods, so their order and number are kept. */
  lemma {:induction false} UnreadySplits(a: seq<PodInfo>, b: seq<PodInfo>)
    ensures Unready(a + b) == Unready(a) + Unready(b)
    ensures |b| == 1 ==> Unready(b) == if b[0].status != RunningAndReady then b else []
  {
    if b == [] {
      assert a + b == a;
    } else {
      var n := |b| - 1;
      UnreadySplits(a, b[..n]);
      assert (a + b)[..|a + b| - 1] == a + b[..n];
    }
  }

  method ComputePodsStatus(pods: seq<Pod>) returns (info: seq<PodInfo>)
    ensures |info| == |pods|
    ensures forall i :: 0 <= i < |pods| ==>
      && info[i].name == pods[i].name && info[i].namespace == pods[i].namespace && info[i].phase == pods[i].phase
      && info[i].hostname == pods[i].nodeName && info[i].status == PodStatus(pods[i])
    ensures info == InfosOf(pods)
  {
    info := [];
    for i := 0 to |pods|
      invariant |info| == i && forall j :: 0 <= j < i ==> info[j] == InfoOf(pods[j])
    {
      var status := ComputePodStatus(pods[i]);
      info := info + [PodInfo(pods[i].name, pods[i].nodeName, pods[i].phase, status, pods[i].namespace)];
    }
  }

  method NotRunningAndReady(info: seq<PodInfo>) returns (res: seq<PodInfo>)
    ensures res == Unready(info)
  {
    res := [];
    for i := 0 to |info|
      invariant res == Unready(info[..i])
    {
      assert info[..i + 1][..i] == info[..i];
      if info[i].status != RunningAndReady {
        res := res + [info[i]];
      }
    }
    assert info[..|info|] == info;
  }
}
