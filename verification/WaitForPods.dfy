/** Waiting until the desired number of pods is running.

    What the loop observes is given to it: whether the context is done or the interval has
    passed, the number of pods desired then, and what listing the pods yields.
 */
module WaitForPods {
  import opened Options
  import opened Pods

  datatype Listing = Listed(pods: seq<Pod>) | ListError

  datatype Tick = ContextDone(deadlineExceeded: bool) | IntervalPassed(desired: int, listing: Listing)

  datatype Outcome =
    | StillWaiting
    | ListFailed
    | Succeeded
    | DeadlineExceeded(unready: seq<PodInfo>)
    | Cancelled(unready: seq<PodInfo>)

  datatype WaitOptions = WaitOptions(countErrorMargin: int, isPodUpdated: UpdateCheck)

  // ---------- what the exits mean ----------

  /** Every listed pod is inactive or running and updated, and the latter are as many as desired. */
  ghost predicate AllUp(pods: seq<Pod>, desired: int, isPodUpdated: UpdateCheck) {
    && (forall i :: 0 <= i < |pods| ==> PodStatus(pods[i]) == Inactive || Belongs(pods[i], RunningUpdated(isPodUpdated)))
    && Count(pods, RunningUpdated(isPodUpdated)) == desired
  }

  /** Few enough inactive pods, no more others than desired, and at most `margin` of these missing. */
  ghost predicate UpWithinMargin(pods: seq<Pod>, desired: int, o: WaitOptions) {
    && o.countErrorMargin > 0
    && Count(pods, Of(Inactive)) <= o.countErrorMargin
    && |pods| - Count(pods, Of(Inactive)) <= desired
    && desired - Count(pods, RunningUpdated(o.isPodUpdated)) <= o.countErrorMargin
  }

  ghost predicate Exits(pods: seq<Pod>, desired: int, o: WaitOptions) {
    AllUp(pods, desired, o.isPodUpdated) || UpWithinMargin(pods, desired, o)
  }

  /** The counters' equalities say something of every pod. */
  lemma {:induction false} AllUpByCounts(pods: seq<Pod>, isPodUpdated: UpdateCheck)
    ensures Count(pods, RunningUpdated(isPodUpdated)) <= Count(pods, Of(RunningAndReady))
    ensures Count(pods, Of(RunningAndReady)) + Count(pods, Of(Inactive)) <= |pods|
    ensures
      && |pods| == Count(pods, Of(RunningAndReady)) + Count(pods, Of(Inactive))
      && Count(pods, Of(RunningAndReady)) == Count(pods, RunningUpdated(isPodUpdated))
      <==>
      forall i :: 0 <= i < |pods| ==> PodStatus(pods[i]) == Inactive || Belongs(pods[i], RunningUpdated(isPodUpdated))
  {
    if pods == [] {
    } else {
      var n := |pods| - 1;
      AllUpByCounts(pods[..n], isPodUpdated);
      assert forall i :: 0 <= i < n ==> pods[..n][i] == pods[i];
    }
  }

  lemma {:induction false} LaggingCount(pods: seq<Pod>, isPodUpdated: UpdateCheck)
    ensures Count(pods, Lagging(isPodUpdated)) + Count(pods, Of(Inactive)) + Count(pods, RunningUpdated(isPodUpdated))
         == |pods|
  {
    if pods == [] {
    } else {
      LaggingCount(pods[..|pods| - 1], isPodUpdated);
    }
  }

  /** The margin exit bounds the listed pods and those that are neither inactive nor up. */
  lemma MarginExitBounds(pods: seq<Pod>, desired: int, o: WaitOptions)
    requires UpWithinMargin(pods, desired, o)
    ensures |pods| <= desired + o.countErrorMargin
    ensures Count(pods, Lagging(o.isPodUpdated)) <= o.countErrorMargin
  {
    LaggingCount(pods, o.isPodUpdated);
  }

  /** The two exits, told from the numbers of pods in all, inactive, and running, ready and updated. */
  lemma ExitsMean(pods: seq<Pod>, desired: int, o: WaitOptions)
    ensures
      var inactive, up := |Members(pods, Of(Inactive))|, |Members(pods, RunningUpdated(o.isPodUpdated))|;
      Exits(pods, desired, o) <==>
      || (up == desired && inactive + up == |pods|)
      || (o.countErrorMargin > 0 && up + o.countErrorMargin >= desired
          && |pods| <= desired + inactive && inactive <= o.countErrorMargin)
  {
    CountIsSize(pods, Of(Inactive));
    CountIsSize(pods, RunningUpdated(o.isPodUpdated));
    AllUpByCounts(pods, o.isPodUpdated);
  }

  // ---------- the loop ----------

  /** The outcome of waiting with `pods` last listed. */
  ghost function Waited(pods: seq<Pod>, ticks: seq<Tick>, o: WaitOptions): Outcome
    decreases |ticks|
  {
    if ticks == [] then StillWaiting
    else
      match ticks[0]
      case ContextDone(deadlineExceeded) =>
        var unready := Unready(InfosOf(pods));
        if deadlineExceeded then DeadlineExceeded(unready) else Cancelled(unready)
      case IntervalPassed(_, ListError) => ListFailed
      case IntervalPassed(desired, Listed(pods')) =>
        if Exits(pods', desired, o) then Succeeded else Waited(pods', ticks[1..], o)
  }

  /** One listing's verdict, from the counters. */
  method CheckListing(pods: seq<Pod>, desired: int, o: WaitOptions) returns (done: bool)
    ensures done <==> Exits(pods, desired, o)
  {
    var s := ComputePodsStartupStatus(pods, desired, o.isPodUpdated);
    AllUpByCounts(pods, o.isPodUpdated);
    if |pods| == s.running + s.inactive && s.running == s.runningUpdated && s.runningUpdated == desired {
      return true;
    }
    return o.countErrorMargin > 0 && s.runningUpdated >= desired - o.countErrorMargin
           && |pods| - s.inactive <= desired && s.inactive <= o.countErrorMargin;
  }

  method WaitForPods(first: Listing, ticks: seq<Tick>, o: WaitOptions) returns (outcome: Outcome)
    ensures outcome == if first.ListError? then ListFailed else Waited(first.pods, ticks, o)
  {
    if first.ListError? {
      return ListFailed;
    }
    var oldPods := first.pods;
    for i := 0 to |ticks|
      invariant Waited(first.pods, ticks, o) == Waited(oldPods, ticks[i..], o)
    {
      match ticks[i] {
        case ContextDone(deadlineExceeded) =>
          var pods := ComputePodsStatus(oldPods);
          var unready := NotRunningAndReady(pods);
          return if deadlineExceeded then DeadlineExceeded(unready) else Cancelled(unready);
        case IntervalPassed(desired, listing) =>
          if listing.ListError? {
            return ListFailed;
          }
          var done := CheckListing(listing.pods, desired, o);
          if done {
            return Succeeded;
          }
          oldPods := listing.pods;
          assert ticks[i..][1..] == ticks[i + 1..];
      }
    }
    return StillWaiting;
  }

  // ---------- what an outcome says of the whole wait ----------

  /** The pods last listed before tick `n`. */
  ghost function LastListed(pods: seq<Pod>, ticks: seq<Tick>, n: nat): seq<Pod>
    requires n <= |ticks|
  {
    if n == 0 || !(ticks[n - 1].IntervalPassed? && ticks[n - 1].listing.Listed?) then pods
    else ticks[n - 1].listing.pods
  }

  /** A listing that did not end the wait. */
  ghost predicate Passes(t: Tick, o: WaitOptions) {
    t.IntervalPassed? && t.listing.Listed? && !Exits(t.listing.pods, t.desired, o)
  }

  /** The wait goes on exactly while no tick decides it. */
  lemma {:induction false} StillWaitingIff(pods: seq<Pod>, ticks: seq<Tick>, o: WaitOptions)
    ensures Waited(pods, ticks, o) == StillWaiting <==> forall i :: 0 <= i < |ticks| ==> Passes(ticks[i], o)
    decreases |ticks|
  {
    if ticks == [] {
    } else {
      assert ticks == [ticks[0]] + ticks[1..];
      if Passes(ticks[0], o) {
        StillWaitingIff(ticks[0].listing.pods, ticks[1..], o);
      }
    }
  }

  /** The wait ends at the first tick that decides it, and the outcome is that tick's. */
  lemma {:induction false} DecidedByFirst(pods: seq<Pod>, ticks: seq<Tick>, o: WaitOptions) returns (n: nat)
    requires Waited(pods, ticks, o) != StillWaiting
    ensures n < |ticks| && !Passes(ticks[n], o)
    ensures forall i :: 0 <= i < n ==> Passes(ticks[i], o)
    ensures
      match Waited(pods, ticks, o)
      case Succeeded =>
        && ticks[n].IntervalPassed? && ticks[n].listing.Listed?
        && Exits(ticks[n].listing.pods, ticks[n].desired, o)
      case ListFailed => ticks[n].IntervalPassed? && ticks[n].listing.ListError?
      case DeadlineExceeded(unready) =>
        ticks[n] == ContextDone(true) && unready == Unready(InfosOf(LastListed(pods, ticks, n)))
      case Cancelled(unready) =>
        ticks[n] == ContextDone(false) && unready == Unready(InfosOf(LastListed(pods, ticks, n)))
      case StillWaiting => false
    decreases |ticks|
  {
    n := 0;
    if Passes(ticks[0], o) {
      var m := DecidedByFirst(ticks[0].listing.pods, ticks[1..], o);
      n := m + 1;
      assert forall i :: 0 < i <= m ==> ticks[1..][i - 1] == ticks[i];
    }
  }
}
