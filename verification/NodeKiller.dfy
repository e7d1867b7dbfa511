/** Simulated node failures: picking nodes, and killing them over whole runs. */
module NodeKillers {
  import opened Basics

  // ---------- picking nodes ----------

  ghost function Eligible(nodes: seq<string>, excluded: set<string>): seq<string> {
    if nodes == [] then []
    else
      var last := nodes[|nodes| - 1];
      Eligible(nodes[..|nodes| - 1], excluded) + if last in excluded then [] else [last]
  }

  lemma {:induction false} EligibleMembers(nodes: seq<string>, excluded: set<string>, n: string)
    ensures n in Eligible(nodes, excluded) <==> n in nodes && n !in excluded
    ensures |Eligible(nodes, excluded)| <= |nodes|
  {
    if nodes == [] {
    } else {
      var k := |nodes| - 1;
      EligibleMembers(nodes[..k], excluded, n);
      assert nodes == nodes[..k] + [nodes[k]];
    }
  }

  /** Splitting a list splits its eligible nodes, so their order and number are kept. */
  lemma {:induction false} EligibleSplits(a: seq<string>, b: seq<string>, excluded: set<string>)
    ensures Eligible(a + b, excluded) == Eligible(a, excluded) + Eligible(b, excluded)
  {
    if b == [] {
      assert a + b == a;
    } else {
      var n := |b| - 1;
      EligibleSplits(a, b[..n], excluded);
      assert (a + b)[..|a + b| - 1] == a + b[..n];
    }
  }

  /** Keeps the eligible nodes, in order, in the first `kept` places of the very array that is walked. */
  method FilterInPlace(nodes: array<string>, excluded: set<string>) returns (kept: nat)
    modifies nodes
    ensures kept <= nodes.Length
    ensures nodes[..kept] == Eligible(old(nodes[..]), excluded)
  {
    ghost var all := nodes[..];
    kept := 0;
    for i := 0 to nodes.Length
      invariant kept <= i
      invariant nodes[..kept] == Eligible(all[..i], excluded)
      invariant nodes[i..] == all[i..]
    {
      assert all[..i + 1][..i] == all[..i];
      assert nodes[i] == nodes[i..][0] == all[i];
      var node := nodes[i];
      if node !in excluded {
        nodes[kept] := node;
        kept := kept + 1;
        assert nodes[..kept] == nodes[..kept - 1] + [node];
      }
      assert nodes[i + 1..] == all[i + 1..];
    }
    assert all[..nodes.Length] == all;
  }

  /** Shuffles the first `n` places; `random` stands for the random choices. */
  method Shuffle(nodes: array<string>, n: nat, random: nat -> nat)
    requires n <= nodes.Length
    modifies nodes
    ensures multiset(nodes[..n]) == old(multiset(nodes[..n]))
  {
    var i := n;
    while i > 1
      invariant i <= n
      invariant multiset(nodes[..n]) == old(multiset(nodes[..n]))
    {
      i := i - 1;
      var j := random(i) % (i + 1);
      SwapKeepsMultiset(nodes[..n], i, j);
      nodes[i], nodes[j] := nodes[j], nodes[i];
    }
  }

  lemma SwapKeepsMultiset(s: seq<string>, i: nat, j: nat)
    requires i < |s| && j < |s|
    ensures multiset(s[i := s[j]][j := s[i]]) == multiset(s)
  {
  }

  function Ceil(x: real): int {
    -((-x).Floor)
  }

  /** How many of `n` nodes a failure rate asks for. */
  function Wanted(failureRate: real, n: nat): int {
    Ceil(failureRate * n as real)
  }

  /** Picks a share of the nodes that run no Prometheus pod and were not killed before. A negative
      share would be out of bounds. */
  method PickNodes(allNodes: array<string>, prometheusNodes: seq<string>, killed: set<string>,
                   failureRate: real, random: nat -> nat)
    returns (picked: seq<string>, ghost eligible: seq<string>)
    requires Wanted(failureRate, |Eligible(allNodes[..], killed + RunsPrometheus(prometheusNodes))|) >= 0
    modifies allNodes
    ensures eligible == Eligible(old(allNodes[..]), killed + RunsPrometheus(prometheusNodes))
    ensures |picked| == Min(|eligible|, Wanted(failureRate, |eligible|))
    ensures multiset(picked) <= multiset(eligible)
  {
    var excluded := killed + RunsPrometheus(prometheusNodes);
    eligible := Eligible(allNodes[..], excluded);
    var n := FilterInPlace(allNodes, excluded);
    assert n == |allNodes[..n]| == |eligible|;
    Shuffle(allNodes, n, random);
    var numNodes := Wanted(failureRate, n);
    picked := allNodes[..n];
    if n > numNodes {
      PrefixIsPart(picked, numNodes);
      picked := picked[..numNodes];
    }
  }

  /** What is picked: listed nodes, neither killed nor under a scheduled Prometheus pod, and as few as
      cover the share asked for, or all. */
  lemma PickedMeans(nodes: seq<string>, prometheusNodes: seq<string>, killed: set<string>, failureRate: real,
                    picked: seq<string>)
    requires
      var eligible := Eligible(nodes, killed + RunsPrometheus(prometheusNodes));
      |picked| == Min(|eligible|, Wanted(failureRate, |eligible|)) && multiset(picked) <= multiset(eligible)
    ensures forall n :: n in picked ==> n in nodes && n !in killed && (n in prometheusNodes ==> n == "")
    ensures
      var n := |Eligible(nodes, killed + RunsPrometheus(prometheusNodes))|;
      && (|picked| == n || failureRate * n as real <= |picked| as real)
      && (picked == [] || (|picked| - 1) as real < failureRate * n as real)
  {
    var excluded := killed + RunsPrometheus(prometheusNodes);
    WantedIsLeast(failureRate, |Eligible(nodes, excluded)|);
    forall n | n in picked ensures n in nodes && n !in killed && (n in prometheusNodes ==> n == "") {
      assert n in multiset(picked);
      EligibleMembers(nodes, excluded, n);
    }
  }

  /** The number wanted is the least that is no smaller than the share asked for. */
  lemma WantedIsLeast(failureRate: real, n: nat)
    ensures failureRate * n as real <= Wanted(failureRate, n) as real
    ensures (Wanted(failureRate, n) - 1) as real < failureRate * n as real
  {
    CeilIsLeast(failureRate * n as real, Wanted(failureRate, n) - 1);
  }

  lemma PrefixIsPart(s: seq<string>, n: nat)
    requires n <= |s|
    ensures multiset(s[..n]) <= multiset(s)
  {
    assert s == s[..n] + s[n..];
  }

  /** The nodes of scheduled Prometheus pods. */
  function RunsPrometheus(podNodes: seq<string>): set<string> {
    set n | n in podNodes && n != ""
  }

  /** The ceiling is the least integer that is no smaller. */
  lemma CeilIsLeast(x: real, n: int)
    ensures x <= Ceil(x) as real
    ensures x <= n as real ==> Ceil(x) <= n
  {
  }

  // ---------- whole runs ----------

  datatype Event = StopServices(node: string) | RebootNode(node: string)

  /** How far the goroutine that kills a node has got. */
  datatype Worker = Spawned | StopRecorded | Down | RebootRecorded

  /** What a round of killing saw and picked. */
  datatype Round = Round(prometheus: set<string>, picked: seq<string>)

  /** A killer, from its start on: whether it has been stopped, and its round under way. */
  datatype Killer = Killer(live: bool, toSpawn: seq<string>, workers: map<string, Worker>)

  /** All killers share one set of killed nodes. Only the last one started can be stopped. */
  datatype State = State(killed: set<string>, killers: seq<Killer>, log: seq<Event>, rounds: seq<Round>)

  datatype Action =
    | Start
    | Stop
    | Pick(i: nat, nodes: seq<string>, prometheus: set<string>, picked: seq<string>)
    | Spawn(i: nat)
    | RecordStop(i: nat, node: string)
    | StopServicesDone(i: nat, node: string, ok: bool)
    | RecordReboot(i: nat, node: string)
    | RebootDone(i: nat, node: string)

  ghost predicate Idle(k: Killer) {
    k.toSpawn == [] && k.workers == map[]
  }

  ghost predicate At(s: State, i: nat, node: string, w: Worker) {
    i < |s.killers| && node in s.killers[i].workers && s.killers[i].workers[node] == w
  }

  ghost predicate Enabled(s: State, a: Action) {
    match a
    case Start => true
    case Stop => s.killers != [] && s.killers[|s.killers| - 1].live && Idle(s.killers[|s.killers| - 1])
    case Pick(i, nodes, prometheus, picked) =>
      && i < |s.killers| && s.killers[i].live && Idle(s.killers[i]) && Distinct(nodes)
      && multiset(picked) <= multiset(Eligible(nodes, s.killed + prometheus))
    case Spawn(i) => i < |s.killers| && s.killers[i].toSpawn != []
    case RecordStop(i, node) => At(s, i, node, Spawned)
    case StopServicesDone(i, node, _) => At(s, i, node, StopRecorded)
    case RecordReboot(i, node) => At(s, i, node, Down)
    case RebootDone(i, node) => At(s, i, node, RebootRecorded)
  }

  ghost function Working(s: State, i: nat, workers: map<string, Worker>): State
    requires i < |s.killers|
  {
    s.(killers := s.killers[i := s.killers[i].(workers := workers)])
  }

  ghost function Next(s: State, a: Action): State
    requires Enabled(s, a)
  {
    match a
    case Start => s.(killers := s.killers + [Killer(true, [], map[])])
    case Stop =>
      var last := |s.killers| - 1;
      s.(killers := s.killers[last := s.killers[last].(live := false)])
    case Pick(i, _, prometheus, picked) =>
      s.(killers := s.killers[i := s.killers[i].(toSpawn := picked)], rounds := s.rounds + [Round(prometheus, picked)])
    case Spawn(i) =>
      var k := s.killers[i];
      s.(killed := s.killed + {k.toSpawn[0]},
         killers := s.killers[i := k.(toSpawn := k.toSpawn[1..], workers := k.workers[k.toSpawn[0] := Spawned])])
    case RecordStop(i, node) =>
      Working(s, i, s.killers[i].workers[node := StopRecorded]).(log := s.log + [StopServices(node)])
    case StopServicesDone(i, node, ok) =>
      Working(s, i, if ok then s.killers[i].workers[node := Down] else s.killers[i].workers - {node})
    case RecordReboot(i, node) =>
      Working(s, i, s.killers[i].workers[node := RebootRecorded]).(log := s.log + [RebootNode(node)])
    case RebootDone(i, node) => Working(s, i, s.killers[i].workers - {node})
  }

  ghost function Initial(excluded: set<string>): State {
    State(excluded, [], [], [])
  }

  // ---------- what every step keeps, however killers overlap ----------

  /** Some round picked the node while it ran no Prometheus pod. */
  ghost predicate PickedFairly(s: State, node: string) {
    exists r :: 0 <= r < |s.rounds| && node in s.rounds[r].picked && node !in s.rounds[r].prometheus
  }

  /** A killer's nodes to come and under work were fairly picked and not excluded, the latter are
      killed, and those past their stop have its event. */
  ghost predicate KillerSound(s: State, k: Killer, excluded: set<string>) {
    && Distinct(k.toSpawn)
    && (forall n :: n in k.toSpawn ==> n !in excluded && PickedFairly(s, n))
    && (forall n :: n in k.workers ==> n !in excluded && n in s.killed && PickedFairly(s, n))
    && (forall n :: n in k.workers && k.workers[n] != Spawned ==> StopServices(n) in s.log)
  }

  ghost predicate KillersSound(s: State, excluded: set<string>) {
    && excluded <= s.killed
    && forall i :: 0 <= i < |s.killers| ==> KillerSound(s, s.killers[i], excluded)
  }

  ghost predicate LogFair(s: State, excluded: set<string>) {
    forall n :: StopServices(n) in s.log ==> n !in excluded && n in s.killed && PickedFairly(s, n)
  }

  /** Every reboot comes after a stop of the same node. */
  ghost predicate RebootsFollowStops(log: seq<Event>) {
    forall i :: 0 <= i < |log| && log[i].RebootNode? ==> StopServices(log[i].node) in log[..i]
  }

  lemma {:induction false} EligibleDistinct(nodes: seq<string>, excluded: set<string>)
    requires Distinct(nodes)
    ensures Distinct(Eligible(nodes, excluded))
  {
    if nodes == [] {
    } else {
      var k := |nodes| - 1;
      EligibleDistinct(nodes[..k], excluded);
      var kept := Eligible(nodes[..k], excluded);
      forall i | 0 <= i < |kept| ensures kept[i] != nodes[k] {
        EligibleMembers(nodes[..k], excluded, kept[i]);
      }
    }
  }

  lemma {:induction false} DistinctOccurrences(s: seq<string>, x: string)
    ensures Distinct(s) ==> multiset(s)[x] <= 1
  {
    if s == [] {
    } else {
      var k := |s| - 1;
      assert s == s[..k] + [s[k]];
      DistinctOccurrences(s[..k], x);
    }
  }

  lemma {:induction false} FewOccurrencesDistinct(s: seq<string>)
    requires forall x :: multiset(s)[x] <= 1
    ensures Distinct(s)
  {
    if s == [] {
    } else {
      var k := |s| - 1;
      assert s == s[..k] + [s[k]];
      assert forall x :: multiset(s)[x] == multiset(s[..k])[x] + multiset{s[k]}[x];
      FewOccurrencesDistinct(s[..k]);
      assert multiset(s[..k])[s[k]] == 0;
      assert s[k] !in s[..k];
    }
  }

  /** Whatever is picked from distinct nodes is distinct, listed and not excluded. */
  lemma PickedDistinct(nodes: seq<string>, excluded: set<string>, picked: seq<string>)
    requires Distinct(nodes) && multiset(picked) <= multiset(Eligible(nodes, excluded))
    ensures Distinct(picked)
    ensures forall n :: n in picked ==> n in nodes && n !in excluded
  {
    var eligible := Eligible(nodes, excluded);
    EligibleDistinct(nodes, excluded);
    forall x ensures multiset(picked)[x] <= 1 {
      DistinctOccurrences(eligible, x);
    }
    FewOccurrencesDistinct(picked);
    forall n | n in picked ensures n in nodes && n !in excluded {
      assert n in multiset(picked);
      EligibleMembers(nodes, excluded, n);
    }
  }

  lemma FairlyLater(s: State, a: Action, node: string)
    requires Enabled(s, a) && PickedFairly(s, node)
    ensures PickedFairly(Next(s, a), node)
  {
    var r :| 0 <= r < |s.rounds| && node in s.rounds[r].picked && node !in s.rounds[r].prometheus;
    assert Next(s, a).rounds[r] == s.rounds[r];
  }

  /** A killer that does not move stays sound. */
  lemma OthersStaySound(s: State, a: Action, k: Killer, excluded: set<string>)
    requires Enabled(s, a) && KillerSound(s, k, excluded)
    ensures KillerSound(Next(s, a), k, excluded)
  {
    var s' := Next(s, a);
    forall n | PickedFairly(s, n) ensures PickedFairly(s', n) {
      FairlyLater(s, a, n);
    }
    assert forall e :: e in s.log ==> e in s'.log;
  }

  lemma PickerSound(s: State, a: Action, excluded: set<string>)
    requires a.Pick? && Enabled(s, a) && excluded <= s.killed
    ensures KillerSound(Next(s, a), Next(s, a).killers[a.i], excluded)
  {
    var s' := Next(s, a);
    PickedDistinct(a.nodes, s.killed + a.prometheus, a.picked);
    forall n | n in a.picked ensures PickedFairly(s', n) {
      assert s'.rounds[|s.rounds|] == Round(a.prometheus, a.picked);
    }
  }

  lemma SpawnerSound(s: State, a: Action, excluded: set<string>)
    requires a.Spawn? && Enabled(s, a) && KillerSound(s, s.killers[a.i], excluded)
    ensures KillerSound(Next(s, a), Next(s, a).killers[a.i], excluded)
  {
    var all := s.killers[a.i].toSpawn;
    OthersStaySound(s, a, s.killers[a.i], excluded);
    DistinctRest(all);
  }

  lemma DistinctRest(s: seq<string>)
    requires s != [] && Distinct(s)
    ensures Distinct(s[1..]) && forall n :: n in s[1..] ==> n in s && n != s[0]
  {
    assert forall i :: 0 <= i < |s[1..]| ==> s[1..][i] == s[i + 1];
  }

  lemma NextKeepsKillersSound(s: State, a: Action, excluded: set<string>)
    requires KillersSound(s, excluded) && Enabled(s, a)
    ensures KillersSound(Next(s, a), excluded)
  {
    var s' := Next(s, a);
    forall i | 0 <= i < |s'.killers| ensures KillerSound(s', s'.killers[i], excluded) {
      if i < |s.killers| {
        OthersStaySound(s, a, s.killers[i], excluded);
        if a.Pick? && a.i == i {
          PickerSound(s, a, excluded);
        } else if a.Spawn? && a.i == i {
          SpawnerSound(s, a, excluded);
        }
      }
    }
  }

  lemma NextKeepsLogFair(s: State, a: Action, excluded: set<string>)
    requires KillersSound(s, excluded) && LogFair(s, excluded) && Enabled(s, a)
    ensures LogFair(Next(s, a), excluded)
  {
    var s' := Next(s, a);
    forall n | PickedFairly(s, n) ensures PickedFairly(s', n) {
      FairlyLater(s, a, n);
    }
    if a.RecordStop? {
      assert KillerSound(s, s.killers[a.i], excluded);
    }
  }

  lemma NextKeepsRebootOrder(s: State, a: Action, excluded: set<string>)
    requires KillersSound(s, excluded) && RebootsFollowStops(s.log) && Enabled(s, a)
    ensures RebootsFollowStops(Next(s, a).log)
  {
    var log, log' := s.log, Next(s, a).log;
    forall i | 0 <= i < |log'| && log'[i].RebootNode? ensures StopServices(log'[i].node) in log'[..i] {
      if i < |log| {
        assert log'[..i] == log[..i];
      } else {
        assert log'[..i] == log;
        assert KillerSound(s, s.killers[a.i], excluded);
      }
    }
  }

  // ---------- runs ----------

  ghost predicate IsRun(excluded: set<string>, actions: seq<Action>, states: seq<State>) {
    && |states| == |actions| + 1
    && states[0] == Initial(excluded)
    && forall i :: 0 <= i < |actions| ==> Follows(states[i], actions[i], states[i + 1])
  }

  ghost predicate Follows(s: State, a: Action, s': State) {
    Enabled(s, a) && s' == Next(s, a)
  }

  /** However killers start, stop, overlap and interleave: every reboot follows a stop of the same
      node, an excluded node is never stopped, and a stopped node was picked by a round that saw no
      Prometheus pod on it. */
  lemma {:induction false} RunKeepsSound(excluded: set<string>, actions: seq<Action>, states: seq<State>, n: nat)
    requires IsRun(excluded, actions, states) && n < |states|
    ensures KillersSound(states[n], excluded) && LogFair(states[n], excluded) && RebootsFollowStops(states[n].log)
  {
    if n == 0 {
    } else {
      var s, a := states[n - 1], actions[n - 1];
      RunKeepsSound(excluded, actions, states, n - 1);
      assert Follows(s, a, states[n]);
      NextKeepsKillersSound(s, a, excluded);
      NextKeepsLogFair(s, a, excluded);
      NextKeepsRebootOrder(s, a, excluded);
    }
  }

  /** Whose services are known to have been stopped. */
  ghost predicate StopSucceeded(actions: seq<Action>, n: nat, node: string)
    requires n <= |actions|
  {
    exists j, i :: 0 <= j < n && actions[j] == StopServicesDone(i, node, true)
  }

  ghost predicate DownKnown(actions: seq<Action>, states: seq<State>, n: nat)
    requires n <= |actions| && |states| == |actions| + 1
  {
    && (forall i, x :: At(states[n], i, x, Down) || At(states[n], i, x, RebootRecorded) ==> StopSucceeded(actions, n, x))
    && (forall x :: RebootNode(x) in states[n].log ==> StopSucceeded(actions, n, x))
  }

  lemma SucceededLater(actions: seq<Action>, n: nat, node: string)
    requires n < |actions| && StopSucceeded(actions, n, node)
    ensures StopSucceeded(actions, n + 1, node)
  {
    var j, i :| 0 <= j < n && actions[j] == StopServicesDone(i, node, true);
  }

  lemma DownKnownNext(actions: seq<Action>, states: seq<State>, n: nat)
    requires n < |actions| && |states| == |actions| + 1
    requires DownKnown(actions, states, n) && Follows(states[n], actions[n], states[n + 1])
    ensures DownKnown(actions, states, n + 1)
  {
    var s, a, s' := states[n], actions[n], states[n + 1];
    forall x | StopSucceeded(actions, n, x) ensures StopSucceeded(actions, n + 1, x) {
      SucceededLater(actions, n, x);
    }
    forall i, x | At(s', i, x, Down) || At(s', i, x, RebootRecorded) ensures StopSucceeded(actions, n + 1, x) {
      if a == StopServicesDone(i, x, true) {
        assert actions[n] == StopServicesDone(i, x, true);
      } else {
        assert At(s, i, x, Down) || At(s, i, x, RebootRecorded);
      }
    }
    forall x | RebootNode(x) in s'.log ensures StopSucceeded(actions, n + 1, x) {
      assert RebootNode(x) in s.log || (a.RecordReboot? && a.node == x && At(s, a.i, x, Down));
    }
  }

  /** A node is rebooted only if stopping its services succeeded. */
  lemma {:induction false} RebootsNeedStops(excluded: set<string>, actions: seq<Action>, states: seq<State>, n: nat)
    requires IsRun(excluded, actions, states) && n < |states|
    ensures DownKnown(actions, states, n)
  {
    if n == 0 {
    } else {
      RebootsNeedStops(excluded, actions, states, n - 1);
      assert Follows(states[n - 1], actions[n - 1], states[n]);
      DownKnownNext(actions, states, n - 1);
    }
  }

  // ---------- one killer at a time ----------

  ghost predicate NoneLive(s: State) {
    s.killers == [] || !s.killers[|s.killers| - 1].live
  }

  /** Only the last killer may be live, and a stopped one is idle. */
  ghost predicate OneActive(s: State) {
    && (forall i :: 0 <= i < |s.killers| - 1 ==> !s.killers[i].live)
    && (forall i :: 0 <= i < |s.killers| && !s.killers[i].live ==> Idle(s.killers[i]))
  }

  /** No event twice, and stop before reboot. */
  ghost predicate LogOnce(s: State) {
    && Distinct(s.log)
    && (forall n :: RebootNode(n) in s.log ==> StopServices(n) in s.log)
    && (forall n :: StopServices(n) in s.log ==> n in s.killed)
  }

  /** The killer's nodes to come are not yet killed, and which events a node under work has had is
      told by how far its goroutine has got. */
  ghost predicate KillerKnown(s: State, k: Killer) {
    && Distinct(k.toSpawn)
    && (forall n :: n in k.toSpawn ==> n !in s.killed)
    && (forall n :: n in k.workers ==>
          && n in s.killed
          && (StopServices(n) in s.log <==> k.workers[n] != Spawned)
          && (RebootNode(n) in s.log <==> k.workers[n] == RebootRecorded))
  }

  ghost predicate OneByOne(s: State) {
    OneActive(s) && LogOnce(s) && forall i :: 0 <= i < |s.killers| ==> KillerKnown(s, s.killers[i])
  }

  /** Who moves: the last killer, since the others are idle. */
  lemma MoverIsLast(s: State, a: Action)
    requires OneActive(s) && Enabled(s, a) && !a.Start? && !a.Stop?
    ensures a.i == |s.killers| - 1
  {
  }

  lemma NextKeepsOneActive(s: State, a: Action)
    requires OneActive(s) && Enabled(s, a) && (a.Start? ==> NoneLive(s))
    ensures OneActive(Next(s, a))
  {
    if !a.Start? && !a.Stop? {
      MoverIsLast(s, a);
    }
  }

  lemma NextKeepsLogOnce(s: State, a: Action)
    requires OneByOne(s) && Enabled(s, a)
    ensures LogOnce(Next(s, a))
  {
    if a.RecordStop? || a.RecordReboot? {
      assert KillerKnown(s, s.killers[a.i]);
    }
  }

  lemma IdleKnown(s: State, k: Killer)
    requires Idle(k)
    ensures KillerKnown(s, k)
  {
  }

  lemma MoverKnown(s: State, a: Action)
    requires OneByOne(s) && Enabled(s, a) && !a.Start? && !a.Stop?
    ensures KillerKnown(Next(s, a), Next(s, a).killers[a.i])
  {
    assert KillerKnown(s, s.killers[a.i]);
    if a.Pick? {
      PickedDistinct(a.nodes, s.killed + a.prometheus, a.picked);
    } else if a.Spawn? {
      DistinctRest(s.killers[a.i].toSpawn);
    }
  }

  lemma NextKeepsOneByOne(s: State, a: Action)
    requires OneByOne(s) && Enabled(s, a) && (a.Start? ==> NoneLive(s))
    ensures OneByOne(Next(s, a))
  {
    var s' := Next(s, a);
    NextKeepsOneActive(s, a);
    NextKeepsLogOnce(s, a);
    forall i | 0 <= i < |s'.killers| ensures KillerKnown(s', s'.killers[i]) {
      if a.Start? || a.Stop? {
        assert i < |s.killers| ==> KillerKnown(s, s.killers[i]);
      } else {
        MoverIsLast(s, a);
        if i == a.i {
          MoverKnown(s, a);
        } else {
          IdleKnown(s', s'.killers[i]);
        }
      }
    }
  }

  // ---------- the calls of a run ----------

  predicate IsCall(a: Action) {
    a.Start? || a.Stop?
  }

  /** The starts and stops among the actions. */
  ghost function CallsOf(actions: seq<Action>): seq<Action> {
    if actions == [] then []
    else
      var last := actions[|actions| - 1];
      CallsOf(actions[..|actions| - 1]) + if IsCall(last) then [last] else []
  }

  /** Some start comes before the stop of the one before. */
  ghost predicate Overlaps(calls: seq<Action>) {
    exists i :: 0 <= i < |calls| - 1 && BothStart(calls, i)
  }

  ghost predicate BothStart(calls: seq<Action>, i: nat)
    requires i < |calls| - 1
  {
    calls[i].Start? && calls[i + 1].Start?
  }

  ghost predicate EndsWithStart(calls: seq<Action>) {
    calls != [] && calls[|calls| - 1].Start?
  }

  lemma OverlapsLater(calls: seq<Action>, more: seq<Action>)
    requires calls <= more && Overlaps(calls)
    ensures Overlaps(more)
  {
    var i :| 0 <= i < |calls| - 1 && BothStart(calls, i);
    assert BothStart(more, i);
  }

  lemma OverlapAtEnd(calls: seq<Action>)
    requires EndsWithStart(calls)
    ensures Overlaps(calls + [Start])
  {
    assert BothStart(calls + [Start], |calls| - 1);
  }

  lemma CallsNext(actions: seq<Action>, n: nat)
    requires n < |actions|
    ensures CallsOf(actions[..n + 1]) == CallsOf(actions[..n]) + if IsCall(actions[n]) then [actions[n]] else []
  {
    assert actions[..n + 1][..n] == actions[..n];
  }

  lemma {:induction false} CallsBefore(actions: seq<Action>, n: nat)
    requires n <= |actions|
    ensures CallsOf(actions[..n]) <= CallsOf(actions)
  {
    if n == |actions| {
      assert actions[..n] == actions;
    } else {
      var k := |actions| - 1;
      CallsBefore(actions[..k], n);
      assert actions[..k][..n] == actions[..n];
    }
  }

  lemma LiveNext(s: State, a: Action)
    requires Enabled(s, a)
    ensures NoneLive(Next(s, a)) <==> a.Stop? || (!a.Start? && NoneLive(s))
  {
  }

  lemma EndsNext(calls: seq<Action>, a: Action)
    ensures EndsWithStart(calls + if IsCall(a) then [a] else []) <==> a.Start? || (!a.Stop? && EndsWithStart(calls))
  {
    assert !IsCall(a) ==> calls + [] == calls;
  }

  /** A killer is live just after a start. */
  lemma {:induction false} LiveAfterStart(excluded: set<string>, actions: seq<Action>, states: seq<State>, n: nat)
    requires IsRun(excluded, actions, states) && n < |states|
    ensures !NoneLive(states[n]) <==> EndsWithStart(CallsOf(actions[..n]))
  {
    if n == 0 {
    } else {
      LiveAfterStart(excluded, actions, states, n - 1);
      assert Follows(states[n - 1], actions[n - 1], states[n]);
      LiveNext(states[n - 1], actions[n - 1]);
      CallsNext(actions, n - 1);
      EndsNext(CallsOf(actions[..n - 1]), actions[n - 1]);
    }
  }

  lemma {:induction false} RunIsOneByOne(excluded: set<string>, actions: seq<Action>, states: seq<State>, n: nat)
    requires IsRun(excluded, actions, states) && n < |states| && !Overlaps(CallsOf(actions))
    ensures OneByOne(states[n])
  {
    if n == 0 {
    } else {
      var s, a := states[n - 1], actions[n - 1];
      RunIsOneByOne(excluded, actions, states, n - 1);
      assert Follows(s, a, states[n]);
      if a.Start? && !NoneLive(s) {
        LiveAfterStart(excluded, actions, states, n - 1);
        OverlapAtEnd(CallsOf(actions[..n - 1]));
        CallsNext(actions, n - 1);
        CallsBefore(actions, n);
        OverlapsLater(CallsOf(actions[..n]), CallsOf(actions));
      }
      NextKeepsOneByOne(s, a);
    }
  }

  /** Across all rounds and restarts, one killer at a time: no node is stopped or rebooted twice. */
  lemma KilledAtMostOnce(excluded: set<string>, actions: seq<Action>, states: seq<State>, n: nat)
    requires IsRun(excluded, actions, states) && n < |states| && !Overlaps(CallsOf(actions))
    ensures Distinct(states[n].log)
  {
    RunIsOneByOne(excluded, actions, states, n);
  }

  // ---------- overlapping killers ----------

  /** Calls that can be made: a stop comes just after a start. */
  ghost predicate ValidCalls(calls: seq<Action>) {
    && (forall i :: 0 <= i < |calls| ==> IsCall(calls[i]))
    && (forall i :: 0 <= i < |calls| && calls[i].Stop? ==> i > 0 && calls[i - 1].Start?)
  }

  lemma RunExtended(excluded: set<string>, actions: seq<Action>, states: seq<State>, a: Action)
    requires IsRun(excluded, actions, states) && Enabled(states[|actions|], a)
    ensures IsRun(excluded, actions + [a], states + [Next(states[|actions|], a)])
  {
    var actions', states' := actions + [a], states + [Next(states[|actions|], a)];
    forall i | 0 <= i < |actions'| ensures Follows(states'[i], actions'[i], states'[i + 1]) {
      if i < |actions| {
        assert Follows(states[i], actions[i], states[i + 1]);
      }
    }
  }

  /** Nothing but starts and stops has happened. */
  ghost predicate Untouched(s: State, excluded: set<string>) {
    && s.killed == excluded && s.log == []
    && forall i :: 0 <= i < |s.killers| ==> Idle(s.killers[i])
  }

  ghost predicate LastLive(s: State, back: nat) {
    back <= |s.killers| && forall i :: |s.killers| - back <= i < |s.killers| ==> s.killers[i].live
  }

  /** The calls alone make a run. */
  lemma {:induction false} CallsRun(excluded: set<string>, calls: seq<Action>) returns (states: seq<State>)
    requires ValidCalls(calls)
    ensures IsRun(excluded, calls, states) && Untouched(states[|calls|], excluded)
    ensures EndsWithStart(calls) ==> LastLive(states[|calls|], 1)
    ensures EndsWithStart(calls) && EndsWithStart(calls[..|calls| - 1]) ==> LastLive(states[|calls|], 2)
  {
    if calls == [] {
      states := [Initial(excluded)];
    } else {
      var n := |calls| - 1;
      var before := CallsRun(excluded, calls[..n]);
      var s := before[n];
      assert calls[n].Stop? ==> EndsWithStart(calls[..n]);
      assert Enabled(s, calls[n]);
      RunExtended(excluded, calls[..n], before, calls[n]);
      assert calls[..n] + [calls[n]] == calls;
      states := before + [Next(s, calls[n])];
    }
  }

  lemma {:induction false} CallsOfCalls(calls: seq<Action>)
    requires forall i :: 0 <= i < |calls| ==> IsCall(calls[i])
    ensures CallsOf(calls) == calls
  {
    if calls == [] {
    } else {
      CallsOfCalls(calls[..|calls| - 1]);
    }
  }

  /** Another name than those of a finite set. */
  lemma {:induction false} FreshName(names: set<string>, length: nat) returns (x: string)
    ensures x !in names && |x| >= length
  {
    x := seq(length, i => 'x');
    if x in names {
      x := FreshName(names - {x}, length + 1);
    }
  }

  /** Two killers, each between rounds, can pick one node before either marks it as killed. */
  lemma KilledTwice(excluded: set<string>, actions: seq<Action>, states: seq<State>, x: string)
    returns (actions': seq<Action>, states': seq<State>)
    requires IsRun(excluded, actions, states) && Untouched(states[|actions|], excluded) && LastLive(states[|actions|], 2)
    requires x !in excluded
    ensures IsRun(excluded, actions', states') && CallsOf(actions') == CallsOf(actions)
    ensures states'[|actions'|].log == [StopServices(x), StopServices(x)]
  {
    var s0 := states[|actions|];
    var j := |s0.killers| - 1;
    var i := j - 1;
    OnlyEligible(x, excluded);
    var todo := [Pick(i, [x], {}, [x]), Pick(j, [x], {}, [x]), Spawn(i), Spawn(j), RecordStop(i, x), RecordStop(j, x)];
    actions', states' := actions, states;
    actions', states' := Extended(excluded, actions', states', todo[0]);
    actions', states' := Extended(excluded, actions', states', todo[1]);
    actions', states' := Extended(excluded, actions', states', todo[2]);
    actions', states' := Extended(excluded, actions', states', todo[3]);
    actions', states' := Extended(excluded, actions', states', todo[4]);
    actions', states' := Extended(excluded, actions', states', todo[5]);
  }

  lemma Extended(excluded: set<string>, actions: seq<Action>, states: seq<State>, a: Action)
    returns (actions': seq<Action>, states': seq<State>)
    requires IsRun(excluded, actions, states) && Enabled(states[|actions|], a) && !IsCall(a)
    ensures IsRun(excluded, actions', states') && CallsOf(actions') == CallsOf(actions)
    ensures states'[|actions'|] == Next(states[|actions|], a)
  {
    RunExtended(excluded, actions, states, a);
    actions', states' := actions + [a], states + [Next(states[|actions|], a)];
    assert actions'[..|actions|] == actions;
  }

  lemma OnlyEligible(x: string, excluded: set<string>)
    requires x !in excluded
    ensures Eligible([x], excluded + {}) == [x]
  {
    assert [x][..0] == [];
  }

  /** In every run with these calls, at every moment, no event has happened twice. */
  ghost predicate NeverTwice(excluded: set<string>, calls: seq<Action>) {
    forall actions: seq<Action>, states: seq<State> :: IsRun(excluded, actions, states) && CallsOf(actions) <= calls ==>
      Distinct(states[|actions|].log)
  }

  /** Whether nodes are stopped at most once is decided by the starts and stops: exactly when no
      start comes before the stop of the one before. */
  lemma NeverTwiceIff(excluded: set<string>, calls: seq<Action>)
    requires ValidCalls(calls)
    ensures NeverTwice(excluded, calls) <==> !Overlaps(calls)
  {
    if Overlaps(calls) {
      var i :| 0 <= i < |calls| - 1 && BothStart(calls, i);
      var first := calls[..i + 2];
      assert first[..|first| - 1] == calls[..i + 1];
      var states := CallsRun(excluded, first);
      var x := FreshName(excluded, 0);
      var actions', states' := KilledTwice(excluded, first, states, x);
      CallsOfCalls(first);
      assert states'[|actions'|].log[0] == states'[|actions'|].log[1];
    } else {
      forall actions: seq<Action>, states: seq<State> | IsRun(excluded, actions, states) && CallsOf(actions) <= calls
        ensures Distinct(states[|actions|].log)
      {
        if Overlaps(CallsOf(actions)) {
          OverlapsLater(CallsOf(actions), calls);
        }
        KilledAtMostOnce(excluded, actions, states, |actions|);
      }
    }
  }
}
