/** Pairing worker pods that run on different nodes.

    A pod is addressed by its slot: the node it is listed under and its position in that node's
    list. Slots make "no pod is used twice" and "nothing is lost" statements about sets, whatever
    the pods are called.
 */
module PodPairing {
  import opened Basics
  import opened NodeHeaps
  import opened Options
  import opened Sets

  datatype WorkerPod = WorkerPod(podName: string, workerNode: string, podIP: string)

  datatype PodPair = PodPair(
    index: nat,
    sourcePodName: string, sourcePodIP: string,
    destinationPodName: string, destinationPodIP: string)

  function NewPodPair(index: nat, source: WorkerPod, destination: WorkerPod): PodPair {
    PodPair(index, source.podName, source.podIP, destination.podName, destination.podIP)
  }

  datatype Slot = Slot(node: string, position: nat)

  type PodMap = map<string, seq<WorkerPod>>

  // ---------- counting slots ----------

  ghost function Slots(m: PodMap): set<Slot> {
    set k, i | k in m && 0 <= i < |m[k]| :: Slot(k, i)
  }

  ghost function NodeSlots(k: string, n: nat): set<Slot> {
    set i | 0 <= i < n :: Slot(k, i)
  }

  ghost function Drop(m: PodMap, k: string): PodMap {
    m - {k}
  }

  lemma {:induction false} NodeSlotsSize(k: string, n: nat)
    ensures |NodeSlots(k, n)| == n
  {
    if n == 0 {
    } else {
      NodeSlotsSize(k, n - 1);
      assert NodeSlots(k, n) == NodeSlots(k, n - 1) + {Slot(k, n - 1)};
    }
  }

  lemma SlotsSplit(m: PodMap, k: string)
    requires k in m
    ensures |Slots(m)| == |m[k]| + |Slots(Drop(m, k))|
  {
    NodeSlotsSize(k, |m[k]|);
    var here, rest := NodeSlots(k, |m[k]|), Slots(Drop(m, k));
    assert Slots(m) == here + rest;
    assert here !! rest;
  }

  lemma NoSlots(m: PodMap)
    requires forall k :: k in m ==> m[k] == []
    ensures Slots(m) == {}
  {
  }

  // ---------- the fullest node ----------

  ghost predicate IsFullest(m: PodMap, n: nat) {
    && (forall k :: k in m ==> |m[k]| <= n)
    && (n > 0 ==> exists k :: k in m && |m[k]| == n)
  }

  lemma {:induction false} FullestExists(m: PodMap)
    ensures exists n :: IsFullest(m, n)
  {
    if m.Keys == {} {
      assert IsFullest(m, 0);
    } else {
      var k :| k in m;
      var rest := Drop(m, k);
      FullestExists(rest);
      var n :| IsFullest(rest, n);
      assert forall j :: j in m && j != k ==> j in rest;
      if |m[k]| <= n {
        assert IsFullest(m, n);
      } else {
        assert IsFullest(m, |m[k]|);
      }
    }
  }

  /** The number of pods on the fullest node. */
  ghost function Fullest(m: PodMap): (n: nat)
    ensures IsFullest(m, n)
  {
    FullestExists(m);
    var n :| IsFullest(m, n);
    n
  }

  function Max(a: int, b: int): int {
    if a < b then b else a
  }

  /** The pods that no pairing can use, from the pod total and the fullest node's share. */
  function Unpairable(total: nat, fullest: nat): int {
    Max(total % 2, 2 * fullest - total)
  }

  ghost function Leftover(m: PodMap): int {
    Unpairable(|Slots(m)|, Fullest(m))
  }

  ghost function BestPairCount(m: PodMap): int {
    Min(|Slots(m)| / 2, |Slots(m)| - Fullest(m))
  }

  // ---------- pairings in general ----------

  datatype Draw = Draw(source: Slot, destination: Slot)

  ghost function Used(draws: seq<Draw>): set<Slot> {
    if draws == [] then {}
    else
      var d := draws[|draws| - 1];
      Used(draws[..|draws| - 1]) + {d.source, d.destination}
  }

  /** Disjoint pairs of existing slots, each across two nodes. */
  ghost predicate Pairing(m: PodMap, draws: seq<Draw>) {
    draws == [] ||
    var d := draws[|draws| - 1];
    var before := draws[..|draws| - 1];
    && Pairing(m, before)
    && d.source in Slots(m) && d.destination in Slots(m)
    && d.source.node != d.destination.node
    && d.source !in Used(before) && d.destination !in Used(before)
  }

  lemma {:induction false} UsedSize(m: PodMap, draws: seq<Draw>)
    requires Pairing(m, draws)
    ensures Used(draws) <= Slots(m)
    ensures |Used(draws)| == 2 * |draws|
  {
    if draws == [] {
    } else {
      UsedSize(m, draws[..|draws| - 1]);
    }
  }

  /** The ends of a pairing's pairs that lie off node `k`, one per pair. */
  ghost function OffNode(draws: seq<Draw>, k: string): set<Slot> {
    if draws == [] then {}
    else
      var d := draws[|draws| - 1];
      OffNode(draws[..|draws| - 1], k) + {if d.source.node != k then d.source else d.destination}
  }

  lemma {:induction false} OffNodeSize(m: PodMap, draws: seq<Draw>, k: string)
    requires Pairing(m, draws)
    ensures OffNode(draws, k) <= Slots(Drop(m, k))
    ensures OffNode(draws, k) <= Used(draws)
    ensures |OffNode(draws, k)| == |draws|
  {
    if draws == [] {
    } else {
      var d, before := draws[|draws| - 1], draws[..|draws| - 1];
      OffNodeSize(m, before, k);
      var end := if d.source.node != k then d.source else d.destination;
      assert end !in OffNode(before, k);
      assert end in Slots(Drop(m, k));
    }
  }

  /** No pairing whatsoever has more pairs than `BestPairCount`. */
  lemma NoLargerPairing(m: PodMap, draws: seq<Draw>)
    requires Pairing(m, draws)
    ensures |draws| <= BestPairCount(m)
  {
    UsedSize(m, draws);
    SubsetSize(Used(draws), Slots(m));
    var n := Fullest(m);
    if n > 0 {
      var k :| k in m && |m[k]| == n;
      OffNodeSize(m, draws, k);
      SubsetSize(OffNode(draws, k), Slots(Drop(m, k)));
      SlotsSplit(m, k);
    }
  }

  lemma BestPairCountIsTight(m: PodMap)
    ensures 2 * BestPairCount(m) + Leftover(m) == |Slots(m)|
    ensures 0 <= Leftover(m)
  {
    var n := Fullest(m);
    if n > 0 {
      var k :| k in m && |m[k]| == n;
      SlotsSplit(m, k);
    }
  }

  // ---------- heap entries against lists ----------

  /** The heap holds one entry per listed node that still has pods, with the right count; an
      entry may also stand for a node whose list is empty. */
  ghost predicate HeapAgrees(entries: multiset<NodeInfo>, m: PodMap) {
    && (forall e :: e in entries ==>
          entries[e] == 1 && e.nodeName in m && |m[e.nodeName]| == e.numberOfPods)
    && (forall k :: k in m && m[k] != [] ==> NodeInfo(k, |m[k]|) in entries)
  }

  ghost function EmptyEntries(entries: multiset<NodeInfo>): set<NodeInfo> {
    set e | e in entries && e.numberOfPods == 0
  }

  ghost function EmptyNodes(m: PodMap): set<string> {
    set k | k in m && m[k] == []
  }

  /** What taking the last pod of node `k` does to the lists; a node found empty is forgotten. */
  ghost function Taken(m: PodMap, k: string): PodMap {
    if k !in m then m
    else if m[k] == [] then m - {k}
    else m[k := m[k][..|m[k]| - 1]]
  }

  /** The entries pushed back for a popped entry. */
  ghost function Returned(e: NodeInfo): multiset<NodeInfo> {
    if e.numberOfPods > 1 then multiset{NodeInfo(e.nodeName, e.numberOfPods - 1)} else multiset{}
  }

  ghost function LastSlot(e: NodeInfo): Slot
    requires e.numberOfPods > 0
  {
    Slot(e.nodeName, e.numberOfPods - 1)
  }

  ghost predicate AtMostOneNodeLeft(m: PodMap) {
    forall j, k :: j in m && k in m && m[j] != [] && m[k] != [] ==> j == k
  }

  lemma FirstIsFullest(entries: multiset<NodeInfo>, m: PodMap, first: NodeInfo)
    requires HeapAgrees(entries, m) && first in entries
    requires forall e :: e in entries ==> e.numberOfPods <= first.numberOfPods
    ensures Fullest(m) == first.numberOfPods
  {
    var n := Fullest(m);
    if n > 0 {
      var k :| k in m && |m[k]| == n;
      assert NodeInfo(k, n) in entries;
    }
  }

  lemma ThreeNodes(m: PodMap, a: string, b: string, c: string)
    requires a in m && b in m && c in m && a != b && b != c && a != c
    ensures |Slots(m)| >= |m[a]| + |m[b]| + |m[c]|
  {
    SlotsSplit(m, a);
    SlotsSplit(Drop(m, a), b);
    SlotsSplit(Drop(Drop(m, a), b), c);
  }

  lemma TakenSlots(m: PodMap, k: string)
    requires k in m && m[k] != []
    ensures Slots(Taken(m, k)) == Slots(m) - {Slot(k, |m[k]| - 1)}
    ensures Slot(k, |m[k]| - 1) in Slots(m)
  {
  }

  lemma UnpairableKept(total: nat, n: nat, n2: nat)
    requires total >= 2 && 1 <= n && n - 1 <= n2 <= n
    requires n2 == n ==> total >= 3 * n
    ensures Unpairable(total - 2, n2) == Unpairable(total, n)
  {
  }

  /** Taking one pod from each of the two fullest nodes wastes nothing: what cannot be paired
      afterwards is what could not be paired before. */
  lemma LeftoverKept(m: PodMap, a: string, b: string)
    requires a in m && b in m && a != b && m[b] != []
    requires |m[a]| == Fullest(m)
    requires forall k :: k in m && k != a ==> |m[k]| <= |m[b]|
    ensures Leftover(Taken(Taken(m, a), b)) == Leftover(m)
  {
    var m1 := Taken(m, a);
    var m2 := Taken(m1, b);
    TakenSlots(m, a);
    TakenSlots(m1, b);
    assert |Slots(m2)| == |Slots(m)| - 2;
    var n, n2 := Fullest(m), Fullest(m2);
    assert |m2[a]| == n - 1;
    assert n - 1 <= n2 <= n;
    if n2 == n {
      var c :| c in m2 && |m2[c]| == n;
      ThreeNodes(m, a, b, c);
    }
    UnpairableKept(|Slots(m)|, n, n2);
  }

  /** Popping one entry, pushing it back with one pod less and taking that pod from the lists. */
  ghost function Replaced(entries: multiset<NodeInfo>, e: NodeInfo): multiset<NodeInfo> {
    entries - multiset{e} + Returned(e)
  }

  lemma ReplaceOne(entries: multiset<NodeInfo>, m: PodMap, e: NodeInfo)
    requires HeapAgrees(entries, m) && e in entries
    ensures HeapAgrees(Replaced(entries, e), Taken(m, e.nodeName))
    ensures EmptyEntries(Replaced(entries, e)) == EmptyEntries(entries) - {e}
    ensures forall d :: d in entries && d != e ==> d.nodeName != e.nodeName && d in Replaced(entries, e)
  {
    ReplacedEntries(entries, m, e);
    ReplacedCovers(entries, m, e);
    ReplacedEmpty(entries, m, e);
  }

  lemma ReplacedCovers(entries: multiset<NodeInfo>, m: PodMap, e: NodeInfo)
    requires HeapAgrees(entries, m) && e in entries
    ensures
      var m' := Taken(m, e.nodeName);
      forall k :: k in m' && m'[k] != [] ==> NodeInfo(k, |m'[k]|) in Replaced(entries, e)
  {
    var m' := Taken(m, e.nodeName);
    forall k | k in m' && m'[k] != [] ensures NodeInfo(k, |m'[k]|) in Replaced(entries, e) {
      if k != e.nodeName {
        assert NodeInfo(k, |m[k]|) in entries;
      }
    }
  }

  lemma ReplacedEmpty(entries: multiset<NodeInfo>, m: PodMap, e: NodeInfo)
    requires HeapAgrees(entries, m) && e in entries
    ensures EmptyEntries(Replaced(entries, e)) == EmptyEntries(entries) - {e}
  {
    assert entries[e] == 1;
    assert forall d :: d in Returned(e) ==> d.numberOfPods > 0;
  }

  lemma ReplacedEntries(entries: multiset<NodeInfo>, m: PodMap, e: NodeInfo)
    requires HeapAgrees(entries, m) && e in entries
    ensures forall d :: d in Replaced(entries, e) ==>
      && Replaced(entries, e)[d] == 1
      && ((d in entries && d != e && d.nodeName != e.nodeName) || d in Returned(e))
  {
    assert entries[e] == 1;
    assert forall d :: d in Returned(e) ==> d !in entries;
  }

  ghost predicate TwoFullest(entries: multiset<NodeInfo>, first: NodeInfo, second: NodeInfo) {
    && first in entries && second in entries && first != second
    && (forall e :: e in entries ==> e.numberOfPods <= first.numberOfPods)
    && (forall e :: e in entries && e != first ==> e.numberOfPods <= second.numberOfPods)
  }

  ghost function Next(m: PodMap, first: NodeInfo, second: NodeInfo): PodMap {
    Taken(Taken(m, first.nodeName), second.nodeName)
  }

  lemma IterationAgrees(entries: multiset<NodeInfo>, m: PodMap, first: NodeInfo, second: NodeInfo)
    requires HeapAgrees(entries, m) && TwoFullest(entries, first, second)
    ensures first.nodeName != second.nodeName
    ensures HeapAgrees(Replaced(Replaced(entries, first), second), Next(m, first, second))
    ensures EmptyEntries(Replaced(Replaced(entries, first), second))
         == EmptyEntries(entries) - {first} - {second}
  {
    ReplaceOne(entries, m, first);
    ReplaceOne(Replaced(entries, first), Taken(m, first.nodeName), second);
  }

  lemma OthersNoFuller(entries: multiset<NodeInfo>, m: PodMap, first: NodeInfo, second: NodeInfo)
    requires HeapAgrees(entries, m) && TwoFullest(entries, first, second)
    ensures first.nodeName != second.nodeName
    ensures |m[first.nodeName]| == Fullest(m)
    ensures forall k :: k in m && k != first.nodeName ==> |m[k]| <= second.numberOfPods
  {
    FirstIsFullest(entries, m, first);
    forall k | k in m && k != first.nodeName
      ensures |m[k]| <= second.numberOfPods
    {
      if m[k] != [] {
        assert NodeInfo(k, |m[k]|) in entries;
      }
    }
  }

  /** An iteration that forms a pair. */
  lemma PairStep(m: PodMap, a: string, b: string)
    requires a in m && b in m && a != b && m[b] != []
    requires |m[a]| == Fullest(m)
    requires forall k :: k in m && k != a ==> |m[k]| <= |m[b]|
    ensures m[a] != []
    ensures Slots(Taken(Taken(m, a), b)) == Slots(m) - {Slot(a, |m[a]| - 1), Slot(b, |m[b]| - 1)}
    ensures Slot(a, |m[a]| - 1) in Slots(m) && Slot(b, |m[b]| - 1) in Slots(m)
    ensures Leftover(Taken(Taken(m, a), b)) == Leftover(m)
  {
    TakenSlots(m, a);
    TakenSlots(Taken(m, a), b);
    LeftoverKept(m, a, b);
  }

  /** An iteration that finds a single node with pods left, and loses one of its pods. */
  lemma DropStep(m: PodMap, a: string, b: string)
    requires a in m && b in m && a != b && m[a] != []
    requires forall k :: k in m && k != a ==> m[k] == []
    ensures Slots(Taken(Taken(m, a), b)) == Slots(m) - {Slot(a, |m[a]| - 1)}
    ensures Slot(a, |m[a]| - 1) in Slots(m)
    ensures Leftover(m) == |Slots(m)|
    ensures Leftover(Taken(Taken(m, a), b)) == |Slots(Taken(Taken(m, a), b))|
  {
    TakenSlots(m, a);
    assert Slots(Taken(Taken(m, a), b)) == Slots(Taken(m, a));
    OneNodeLeftover(m, a);
    OneNodeLeftover(Taken(Taken(m, a), b), a);
  }

  /** An iteration that finds only empty nodes leaves only empty nodes. */
  lemma IdleStep(m: PodMap, a: string, b: string)
    requires forall k :: k in m ==> m[k] == []
    ensures forall k :: k in Taken(Taken(m, a), b) ==> Taken(Taken(m, a), b)[k] == []
  {
    var m1 := Taken(m, a);
    assert forall k :: k in m1 ==> k in m && m1[k] == [];
  }

  lemma NothingLeft(m: PodMap)
    requires forall k :: k in m ==> m[k] == []
    ensures Slots(m) == {} && Leftover(m) == 0
  {
    NoSlots(m);
    OneNodeLeftover(m, "");
  }

  /** Pods of a single node cannot be paired at all. */
  lemma OneNodeLeftover(m: PodMap, a: string)
    requires forall k :: k in m && k != a ==> m[k] == []
    ensures Leftover(m) == |Slots(m)| == Fullest(m) == if a in m then |m[a]| else 0
  {
    if a in m {
      SlotsSplit(m, a);
      NoSlots(Drop(m, a));
    } else {
      NoSlots(m);
    }
  }

  // ---------- the loop ----------

  ghost predicate ListsShrunk(m0: PodMap, m: PodMap) {
    forall k :: k in m ==> k in m0 && m[k] <= m0[k]
  }

  /** The pairs report, in order, exactly the pods sitting in the drawn slots. */
  ghost predicate Reports(m0: PodMap, draws: seq<Draw>, pairs: seq<PodPair>) {
    && |pairs| == |draws|
    && forall j :: 0 <= j < |draws| ==>
         && draws[j].source in Slots(m0) && draws[j].destination in Slots(m0)
         && pairs[j].index == j
         && IsSource(pairs[j], PodAt(m0, draws[j].source))
         && IsDestination(pairs[j], PodAt(m0, draws[j].destination))
  }

  ghost predicate IsSource(pair: PodPair, pod: WorkerPod) {
    pair.sourcePodName == pod.podName && pair.sourcePodIP == pod.podIP
  }

  ghost predicate IsDestination(pair: PodPair, pod: WorkerPod) {
    pair.destinationPodName == pod.podName && pair.destinationPodIP == pod.podIP
  }

  ghost function PodAt(m: PodMap, s: Slot): WorkerPod
    requires s in Slots(m)
  {
    m[s.node][s.position]
  }

  /** Every slot is used, dropped or left, and only one of these. */
  ghost predicate Accounted(all: set<Slot>, used: set<Slot>, dropped: set<Slot>, left: set<Slot>) {
    && all == used + dropped + left
    && used !! dropped !! left
  }

  /** What the loop has kept so far. */
  ghost predicate Progress(m0: PodMap, m: PodMap, entries: multiset<NodeInfo>,
                           draws: seq<Draw>, dropped: set<Slot>)
  {
    && HeapAgrees(entries, m)
    && ListsShrunk(m0, m)
    && Pairing(m0, draws)
    && Accounted(Slots(m0), Used(draws), dropped, Slots(m))
    && Tally(Leftover(m0), |EmptyNodes(m0)|, |dropped|, Leftover(m), |EmptyEntries(entries)|)
  }

  ghost predicate Tally(leftover0: int, empty0: nat, dropped: nat, leftover: int, empty: nat) {
    && dropped + leftover == leftover0
    && dropped + Min(leftover, empty) == Min(leftover0, empty0)
  }

  lemma NextShrinks(m0: PodMap, m: PodMap, k: string)
    requires ListsShrunk(m0, m)
    ensures ListsShrunk(m0, Taken(m, k))
  {
  }

  lemma PairingExtends(m0: PodMap, draws: seq<Draw>, d: Draw, dropped: set<Slot>, left: set<Slot>)
    requires Pairing(m0, draws) && Accounted(Slots(m0), Used(draws), dropped, left)
    requires d.source in left && d.destination in left && d.source.node != d.destination.node
    ensures Pairing(m0, draws + [d])
    ensures Used(draws + [d]) == Used(draws) + {d.source, d.destination}
    ensures Accounted(Slots(m0), Used(draws + [d]), dropped, left - {d.source, d.destination})
  {
    assert (draws + [d])[..|draws|] == draws;
  }

  lemma PodsLeft(entries: multiset<NodeInfo>, e: NodeInfo)
    requires e.numberOfPods > 0
    ensures EmptyEntries(entries) - {e} == EmptyEntries(entries)
  {
  }

  /** What an iteration that forms a pair does to the lists. */
  lemma PairChanges(entries: multiset<NodeInfo>, m: PodMap, first: NodeInfo, second: NodeInfo)
    requires HeapAgrees(entries, m) && TwoFullest(entries, first, second)
    requires second.numberOfPods > 0
    ensures first.nodeName != second.nodeName
    ensures LastSlot(first) in Slots(m) && LastSlot(second) in Slots(m)
    ensures Slots(Next(m, first, second)) == Slots(m) - {LastSlot(first), LastSlot(second)}
    ensures Leftover(Next(m, first, second)) == Leftover(m)
  {
    var a, b := first.nodeName, second.nodeName;
    OthersNoFuller(entries, m, first, second);
    assert |m[a]| == first.numberOfPods && |m[b]| == second.numberOfPods;
    PairStep(m, a, b);
  }

  /** What an iteration that loses a pod does to the lists. */
  lemma DropChanges(entries: multiset<NodeInfo>, m: PodMap, first: NodeInfo, second: NodeInfo)
    requires HeapAgrees(entries, m) && TwoFullest(entries, first, second)
    requires first.numberOfPods > 0 == second.numberOfPods
    ensures LastSlot(first) in Slots(m)
    ensures Slots(Next(m, first, second)) == Slots(m) - {LastSlot(first)}
    ensures Leftover(m) == |Slots(m)|
    ensures Leftover(Next(m, first, second)) == |Slots(m)| - 1
    ensures AtMostOneNodeLeft(Next(m, first, second))
  {
    var a, b := first.nodeName, second.nodeName;
    OthersNoFuller(entries, m, first, second);
    assert |m[a]| == first.numberOfPods && |m[b]| == second.numberOfPods;
    DropStep(m, a, b);
  }

  /** An iteration only removes the entries of nodes it found empty. */
  lemma EmptyEntriesAfter(entries: multiset<NodeInfo>, m: PodMap, first: NodeInfo, second: NodeInfo)
    requires HeapAgrees(entries, m) && TwoFullest(entries, first, second) && first.numberOfPods > 0
    ensures EmptyEntries(Replaced(Replaced(entries, first), second))
         == if second.numberOfPods > 0 then EmptyEntries(entries) else EmptyEntries(entries) - {second}
    ensures second.numberOfPods == 0 ==> second in EmptyEntries(entries)
  {
    IterationAgrees(entries, m, first, second);
    PodsLeft(entries, first);
    if second.numberOfPods > 0 {
      PodsLeft(entries, second);
    }
  }

  lemma IterationKeeps(m0: PodMap, m: PodMap, entries: multiset<NodeInfo>, first: NodeInfo, second: NodeInfo)
    requires HeapAgrees(entries, m) && ListsShrunk(m0, m) && TwoFullest(entries, first, second)
    ensures HeapAgrees(Replaced(Replaced(entries, first), second), Next(m, first, second))
    ensures ListsShrunk(m0, Next(m, first, second))
  {
    IterationAgrees(entries, m, first, second);
    NextShrinks(m0, m, first.nodeName);
    NextShrinks(m0, Taken(m, first.nodeName), second.nodeName);
  }

  lemma ProgressByPair(m0: PodMap, m: PodMap, entries: multiset<NodeInfo>,
                       draws: seq<Draw>, dropped: set<Slot>, first: NodeInfo, second: NodeInfo)
    requires Progress(m0, m, entries, draws, dropped)
    requires TwoFullest(entries, first, second) && second.numberOfPods > 0
    ensures
      Progress(m0, Next(m, first, second), Replaced(Replaced(entries, first), second),
               draws + [Draw(LastSlot(first), LastSlot(second))], dropped)
  {
    IterationKeeps(m0, m, entries, first, second);
    PairChanges(entries, m, first, second);
    EmptyEntriesAfter(entries, m, first, second);
    PairingExtends(m0, draws, Draw(LastSlot(first), LastSlot(second)), dropped, Slots(m));
  }

  lemma AccountedAfterDrop(all: set<Slot>, used: set<Slot>, dropped: set<Slot>, left: set<Slot>, s: Slot)
    requires Accounted(all, used, dropped, left) && s in left
    ensures Accounted(all, used, dropped + {s}, left - {s})
    ensures |dropped + {s}| == |dropped| + 1 && |left - {s}| == |left| - 1
  {
  }

  lemma TallyAfterDrop(leftover0: int, empty0: nat, dropped: nat, leftover: int, e: NodeInfo, empty: set<NodeInfo>)
    requires Tally(leftover0, empty0, dropped, leftover, |empty|) && leftover > 0 && e in empty
    ensures Tally(leftover0, empty0, dropped + 1, leftover - 1, |empty - {e}|)
  {
    assert |empty - {e}| == |empty| - 1;
  }

  lemma ProgressByDrop(m0: PodMap, m: PodMap, entries: multiset<NodeInfo>,
                       draws: seq<Draw>, dropped: set<Slot>, first: NodeInfo, second: NodeInfo)
    requires Progress(m0, m, entries, draws, dropped)
    requires TwoFullest(entries, first, second) && first.numberOfPods > 0 == second.numberOfPods
    ensures
      Progress(m0, Next(m, first, second), Replaced(Replaced(entries, first), second),
               draws, dropped + {LastSlot(first)})
  {
    var lost, left, empty := LastSlot(first), Slots(m), EmptyEntries(entries);
    DropChanges(entries, m, first, second);
    EmptyEntriesAfter(entries, m, first, second);
    AccountedAfterDrop(Slots(m0), Used(draws), dropped, left, lost);
    TallyAfterDrop(Leftover(m0), |EmptyNodes(m0)|, |dropped|, Leftover(m), second, empty);
    IterationKeeps(m0, m, entries, first, second);
  }

  lemma ProgressByIdling(m0: PodMap, m: PodMap, entries: multiset<NodeInfo>,
                         draws: seq<Draw>, dropped: set<Slot>, first: NodeInfo, second: NodeInfo)
    requires Progress(m0, m, entries, draws, dropped)
    requires TwoFullest(entries, first, second) && first.numberOfPods == 0
    ensures
      Progress(m0, Next(m, first, second), Replaced(Replaced(entries, first), second), draws, dropped)
    ensures Slots(Next(m, first, second)) == Slots(m)
    ensures AtMostOneNodeLeft(Next(m, first, second))
  {
    var entries', m' := Replaced(Replaced(entries, first), second), Next(m, first, second);
    assert HeapAgrees(entries', m') by {
      IterationAgrees(entries, m, first, second);
    }
    assert Slots(m') == Slots(m) && Leftover(m') == Leftover(m) == 0 && AtMostOneNodeLeft(m') by {
      OthersNoFuller(entries, m, first, second);
      IdleStep(m, first.nodeName, second.nodeName);
      NothingLeft(m);
      NothingLeft(m');
    }
    assert ListsShrunk(m0, m') by {
      NextShrinks(m0, m, first.nodeName);
      NextShrinks(m0, Taken(m, first.nodeName), second.nodeName);
    }
  }

  /** With at most one entry left in the heap, nothing more can be paired or dropped. */
  lemma HeapExhausted(m: PodMap, nodes: seq<NodeInfo>)
    requires HeapAgrees(multiset(nodes), m) && |nodes| <= 1
    ensures Leftover(m) == |Slots(m)|
    ensures Leftover(m) == 0 || EmptyEntries(multiset(nodes)) == {}
  {
    var a := if nodes == [] then "" else nodes[0].nodeName;
    assert forall k :: k in m && m[k] != [] ==> NodeInfo(k, |m[k]|) in multiset(nodes);
    OneNodeLeftover(m, a);
  }

  lemma LoopDone(m0: PodMap, m: PodMap, nodes: seq<NodeInfo>, draws: seq<Draw>, dropped: set<Slot>)
    requires Progress(m0, m, multiset(nodes), draws, dropped) && |nodes| <= 1
    ensures |draws| == BestPairCount(m0)
    ensures |dropped| == Min(Leftover(m0), |EmptyNodes(m0)|)
  {
    HeapExhausted(m, nodes);
    UsedSize(m0, draws);
    BestPairCountIsTight(m0);
    AccountedSizes(Slots(m0), Used(draws), dropped, Slots(m));
  }

  lemma AccountedSizes(all: set<Slot>, used: set<Slot>, dropped: set<Slot>, left: set<Slot>)
    requires Accounted(all, used, dropped, left)
    ensures |all| == |used| + |dropped| + |left|
  {
  }

  /** Adding the entry of one more node while the heap is filled. */
  lemma EntryAgrees(entries: multiset<NodeInfo>, m: PodMap, k: string, list: seq<WorkerPod>)
    requires HeapAgrees(entries, m) && k !in m
    ensures NodeInfo(k, |list|) !in entries
    ensures HeapAgrees(entries + multiset{NodeInfo(k, |list|)}, m[k := list])
  {
    var entries', m' := entries + multiset{NodeInfo(k, |list|)}, m[k := list];
    forall j | j in m' && m'[j] != [] ensures NodeInfo(j, |m'[j]|) in entries' {
      assert j != k ==> NodeInfo(j, |m[j]|) in entries;
    }
  }

  lemma EmptyEntryAdded(entries: multiset<NodeInfo>, e: NodeInfo)
    requires e !in entries
    ensures EmptyEntries(entries + multiset{e})
         == EmptyEntries(entries) + if e.numberOfPods == 0 then {e} else {}
  {
  }

  lemma EmptyNodeAdded(m: PodMap, k: string, list: seq<WorkerPod>)
    requires k !in m
    ensures EmptyNodes(m[k := list]) == EmptyNodes(m) + if list == [] then {k} else {}
  {
  }

  lemma EntryAdded(entries: multiset<NodeInfo>, m: PodMap, k: string, list: seq<WorkerPod>)
    requires HeapAgrees(entries, m) && k !in m
    requires |EmptyEntries(entries)| == |EmptyNodes(m)|
    ensures HeapAgrees(entries + multiset{NodeInfo(k, |list|)}, m[k := list])
    ensures |EmptyEntries(entries + multiset{NodeInfo(k, |list|)})| == |EmptyNodes(m[k := list])|
  {
    EntryAgrees(entries, m, k, list);
    EmptyEntryAdded(entries, NodeInfo(k, |list|));
    EmptyNodeAdded(m, k, list);
  }

  // The ghost record of one iteration.

  ghost function NextDraws(draws: seq<Draw>, first: NodeInfo, second: NodeInfo): seq<Draw> {
    if first.numberOfPods > 0 && second.numberOfPods > 0
    then draws + [Draw(LastSlot(first), LastSlot(second))]
    else draws
  }

  ghost function NextDropped(dropped: set<Slot>, first: NodeInfo, second: NodeInfo): set<Slot> {
    if first.numberOfPods > 0 == second.numberOfPods then dropped + {LastSlot(first)} else dropped
  }

  lemma IterationProgress(m0: PodMap, m: PodMap, entries: multiset<NodeInfo>,
                          draws: seq<Draw>, dropped: set<Slot>, first: NodeInfo, second: NodeInfo)
    requires Progress(m0, m, entries, draws, dropped) && TwoFullest(entries, first, second)
    ensures Progress(m0, Next(m, first, second), Replaced(Replaced(entries, first), second),
                     NextDraws(draws, first, second), NextDropped(dropped, first, second))
  {
    if second.numberOfPods > 0 {
      ProgressByPair(m0, m, entries, draws, dropped, first, second);
    } else if first.numberOfPods > 0 {
      ProgressByDrop(m0, m, entries, draws, dropped, first, second);
    } else {
      ProgressByIdling(m0, m, entries, draws, dropped, first, second);
    }
  }

  /** The pair an iteration reports, if any, is made of the pods in the slots it draws, and is
      numbered by its position. */
  ghost predicate Numbered(m: PodMap, pairs: seq<PodPair>, i: nat) {
    i == |pairs| || AtMostOneNodeLeft(m)
  }

  ghost function NextPairs(m: PodMap, pairs: seq<PodPair>, i: nat, first: NodeInfo, second: NodeInfo): seq<PodPair> {
    var source, destination := LastPod(m, first.nodeName), LastPod(Taken(m, first.nodeName), second.nodeName);
    if source.Some? && destination.Some?
    then pairs + [NewPodPair(i, source.value, destination.value)]
    else pairs
  }

  lemma DrawnPods(m0: PodMap, m: PodMap, entries: multiset<NodeInfo>, first: NodeInfo, second: NodeInfo)
    requires HeapAgrees(entries, m) && ListsShrunk(m0, m)
    requires TwoFullest(entries, first, second) && second.numberOfPods > 0
    ensures LastSlot(first) in Slots(m0) && LastSlot(second) in Slots(m0)
    ensures LastPod(m, first.nodeName) == Some(PodAt(m0, LastSlot(first)))
    ensures LastPod(Taken(m, first.nodeName), second.nodeName) == Some(PodAt(m0, LastSlot(second)))
    ensures !AtMostOneNodeLeft(m)
  {
    assert m[first.nodeName] <= m0[first.nodeName];
    assert m[second.nodeName] <= m0[second.nodeName];
    ReplaceOne(entries, m, first);
  }

  lemma NothingDrawn(m: PodMap, entries: multiset<NodeInfo>, first: NodeInfo, second: NodeInfo)
    requires HeapAgrees(entries, m) && TwoFullest(entries, first, second) && second.numberOfPods == 0
    ensures LastPod(Taken(m, first.nodeName), second.nodeName) == None
    ensures AtMostOneNodeLeft(Next(m, first, second))
  {
    ReplaceOne(entries, m, first);
    OthersNoFuller(entries, m, first, second);
  }

  lemma IterationReports(m0: PodMap, m: PodMap, entries: multiset<NodeInfo>,
                         draws: seq<Draw>, pairs: seq<PodPair>, i: nat, first: NodeInfo, second: NodeInfo)
    requires HeapAgrees(entries, m) && ListsShrunk(m0, m) && Reports(m0, draws, pairs) && Numbered(m, pairs, i)
    requires TwoFullest(entries, first, second)
    ensures Reports(m0, NextDraws(draws, first, second), NextPairs(m, pairs, i, first, second))
    ensures Numbered(Next(m, first, second), NextPairs(m, pairs, i, first, second), i + 1)
  {
    if second.numberOfPods > 0 {
      DrawnPods(m0, m, entries, first, second);
    } else {
      NothingDrawn(m, entries, first, second);
    }
  }

  /** The pods an iteration takes from the lists: one from each node that has any. */
  ghost function PodsTaken(first: NodeInfo, second: NodeInfo): nat {
    if second.numberOfPods > 0 then 2 else if first.numberOfPods > 0 then 1 else 0
  }

  lemma PairShrinks(m: PodMap, entries: multiset<NodeInfo>, first: NodeInfo, second: NodeInfo)
    requires HeapAgrees(entries, m) && TwoFullest(entries, first, second) && second.numberOfPods > 0
    ensures |Slots(Next(m, first, second))| == |Slots(m)| - 2
  {
    PairChanges(entries, m, first, second);
    TwoRemoved(Slots(m), LastSlot(first), LastSlot(second));
  }

  lemma IdleShrinksNot(m: PodMap, entries: multiset<NodeInfo>, first: NodeInfo, second: NodeInfo)
    requires HeapAgrees(entries, m) && TwoFullest(entries, first, second) && first.numberOfPods == 0
    ensures Slots(Next(m, first, second)) == Slots(m) == {}
  {
    var m' := Next(m, first, second);
    assert forall k :: k in m ==> m[k] == [] by {
      OthersNoFuller(entries, m, first, second);
    }
    IdleStep(m, first.nodeName, second.nodeName);
    NothingLeft(m);
    NothingLeft(m');
  }

  lemma IterationShrinks(m: PodMap, entries: multiset<NodeInfo>, first: NodeInfo, second: NodeInfo)
    requires HeapAgrees(entries, m) && TwoFullest(entries, first, second)
    ensures |Slots(Next(m, first, second))| == |Slots(m)| - PodsTaken(first, second)
  {
    if second.numberOfPods > 0 {
      PairShrinks(m, entries, first, second);
    } else if first.numberOfPods > 0 {
      DropChanges(entries, m, first, second);
    } else {
      IdleShrinksNot(m, entries, first, second);
    }
  }

  lemma PoppedTwoFullest(m: PodMap, entries: multiset<NodeInfo>, first: NodeInfo, second: NodeInfo,
                         rest: multiset<NodeInfo>)
    requires HeapAgrees(entries, m)
    requires entries == rest + multiset{second} + multiset{first}
    requires forall e :: e in entries ==> e.numberOfPods <= first.numberOfPods
    requires forall e :: e in rest + multiset{second} ==> e.numberOfPods <= second.numberOfPods
    ensures TwoFullest(entries, first, second)
    ensures rest + Returned(first) + Returned(second) == Replaced(Replaced(entries, first), second)
  {
    assert entries[first] == 1;
  }

  ghost predicate LoopInvariant(m0: PodMap, m: PodMap, entries: multiset<NodeInfo>, draws: seq<Draw>,
                                dropped: set<Slot>, pairs: seq<PodPair>, i: nat)
  {
    && Progress(m0, m, entries, draws, dropped)
    && Reports(m0, draws, pairs)
    && Numbered(m, pairs, i)
  }

  lemma Iteration(m0: PodMap, m: PodMap, entries: multiset<NodeInfo>, draws: seq<Draw>, dropped: set<Slot>,
                  pairs: seq<PodPair>, i: nat, first: NodeInfo, second: NodeInfo)
    requires LoopInvariant(m0, m, entries, draws, dropped, pairs, i) && TwoFullest(entries, first, second)
    ensures LoopInvariant(m0, Next(m, first, second), Replaced(Replaced(entries, first), second),
                          NextDraws(draws, first, second), NextDropped(dropped, first, second),
                          NextPairs(m, pairs, i, first, second), i + 1)
    ensures |Slots(Next(m, first, second))| == |Slots(m)| - PodsTaken(first, second)
  {
    IterationProgress(m0, m, entries, draws, dropped, first, second);
    IterationShrinks(m, entries, first, second);
    IterationReports(m0, m, entries, draws, pairs, i, first, second);
  }

  /** One entry per node of `m`, the empty ones included. */
  ghost predicate EntriesFor(entries: multiset<NodeInfo>, m: PodMap) {
    HeapAgrees(entries, m) && |EmptyEntries(entries)| == |EmptyNodes(m)|
  }

  lemma NoEntries(m: PodMap)
    ensures EntriesFor(multiset([]), m - m.Keys)
  {
    assert m - m.Keys == map[];
    assert EmptyEntries(multiset([])) == {} && EmptyNodes(map[]) == {};
  }

  lemma EntryForNext(entries: seq<NodeInfo>, m: PodMap, todo: set<string>, k: string)
    requires todo <= m.Keys && k in todo && EntriesFor(multiset(entries), m - todo)
    ensures EntriesFor(multiset(entries + [NodeInfo(k, |m[k]|)]), m - (todo - {k}))
  {
    EntryAdded(multiset(entries), m - todo, k, m[k]);
    assert m - (todo - {k}) == (m - todo)[k := m[k]];
    assert multiset(entries + [NodeInfo(k, |m[k]|)]) == multiset(entries) + multiset{NodeInfo(k, |m[k]|)};
  }

  lemma LoopStarts(m: PodMap, entries: multiset<NodeInfo>)
    requires EntriesFor(entries, m)
    ensures LoopInvariant(m, m, entries, [], {}, [], 0)
  {
  }

  lemma LoopEnds(m0: PodMap, m: PodMap, nodes: seq<NodeInfo>, draws: seq<Draw>, dropped: set<Slot>,
                 pairs: seq<PodPair>, i: nat)
    requires LoopInvariant(m0, m, multiset(nodes), draws, dropped, pairs, i) && |nodes| <= 1
    ensures Paired(m0, m, draws, dropped, pairs)
  {
    LoopDone(m0, m, nodes, draws, dropped);
  }

  ghost function LastPod(m: PodMap, k: string): Option<WorkerPod> {
    if k in m && m[k] != [] then Some(m[k][|m[k]| - 1]) else None
  }

  /** The heap's part of one iteration: pop the two fullest entries and push back what remains. */
  method PopTwoFullest(heap: NodeHeap, ghost m: PodMap) returns (first: NodeInfo, second: NodeInfo)
    requires heap.Valid() && |heap.nodes| > 1 && HeapAgrees(multiset(heap.nodes), m)
    modifies heap
    ensures heap.Valid()
    ensures TwoFullest(old(multiset(heap.nodes)), first, second)
    ensures multiset(heap.nodes) == Replaced(Replaced(old(multiset(heap.nodes)), first), second)
    ensures |heap.nodes| <= old(|heap.nodes|)
    ensures first.numberOfPods == 0 ==> |heap.nodes| < old(|heap.nodes|)
  {
    first := heap.Pop();
    second := heap.Pop();
    PoppedTwoFullest(m, old(multiset(heap.nodes)), first, second, multiset(heap.nodes));
    if first.numberOfPods > 1 {
      heap.Push(NodeInfo(first.nodeName, first.numberOfPods - 1));
    }
    if second.numberOfPods > 1 {
      heap.Push(NodeInfo(second.nodeName, second.numberOfPods - 1));
    }
  }

  /** What pairing the pods of `m0` promises: a largest possible pairing, reported pod by pod, and
      every pod used, lost to an empty node or left in its list. Pods are lost only where some
      node had no pods to begin with. */
  ghost predicate Paired(m0: PodMap, m: PodMap, draws: seq<Draw>, dropped: set<Slot>, pairs: seq<PodPair>) {
    && Pairing(m0, draws)
    && Reports(m0, draws, pairs)
    && |pairs| == BestPairCount(m0)
    && ListsShrunk(m0, m)
    && Accounted(Slots(m0), Used(draws), dropped, Slots(m))
    && |dropped| == Min(Leftover(m0), |EmptyNodes(m0)|)
  }

  /** The pairing formed is at least as large as any other. */
  lemma PairedIsOptimal(m0: PodMap, m: PodMap, draws: seq<Draw>, dropped: set<Slot>, pairs: seq<PodPair>,
                        other: seq<Draw>)
    requires Paired(m0, m, draws, dropped, pairs) && Pairing(m0, other)
    ensures |other| <= |pairs|
  {
    NoLargerPairing(m0, other);
  }

  /** Pods are lost exactly when some node started without pods and not all pods could be paired. */
  lemma LostPods(m0: PodMap, m: PodMap, draws: seq<Draw>, dropped: set<Slot>, pairs: seq<PodPair>)
    requires Paired(m0, m, draws, dropped, pairs)
    ensures dropped == {} <==> EmptyNodes(m0) == {} || 2 * BestPairCount(m0) == |Slots(m0)|
  {
    BestPairCountIsTight(m0);
  }

  // ---------- the iterations of a run ----------

  /** The lists and the heap between iterations. */
  datatype Loop = Loop(lists: PodMap, entries: multiset<NodeInfo>)

  /** The two entries an iteration pops. */
  datatype Popped = Popped(first: NodeInfo, second: NodeInfo)

  ghost function Iterated(l: Loop, p: Popped): Loop {
    Loop(Next(l.lists, p.first, p.second), Replaced(Replaced(l.entries, p.first), p.second))
  }

  ghost function Replay(l: Loop, popped: seq<Popped>): Loop {
    if popped == [] then l else Iterated(Replay(l, popped[..|popped| - 1]), popped[|popped| - 1])
  }

  /** Iteration `n` pops the two fullest entries there are. */
  ghost predicate PopsFullest(l: Loop, popped: seq<Popped>, n: nat)
    requires n < |popped|
  {
    TwoFullest(Replay(l, popped[..n]).entries, popped[n].first, popped[n].second)
  }

  /** The iterations of a run that begins with the lists `m0`, heaped as `entries`. */
  ghost predicate Iterations(m0: PodMap, entries: multiset<NodeInfo>, popped: seq<Popped>) {
    && EntriesFor(entries, m0)
    && forall n :: 0 <= n < |popped| ==> PopsFullest(Loop(m0, entries), popped, n)
  }

  // What the iterations make of the pods.

  ghost function DrawsOf(popped: seq<Popped>): seq<Draw> {
    if popped == [] then []
    else var p := popped[|popped| - 1]; NextDraws(DrawsOf(popped[..|popped| - 1]), p.first, p.second)
  }

  ghost function DroppedOf(popped: seq<Popped>): set<Slot> {
    if popped == [] then {}
    else var p := popped[|popped| - 1]; NextDropped(DroppedOf(popped[..|popped| - 1]), p.first, p.second)
  }

  ghost function PairsOf(l: Loop, popped: seq<Popped>): seq<PodPair> {
    if popped == [] then []
    else
      var n := |popped| - 1;
      NextPairs(Replay(l, popped[..n]).lists, PairsOf(l, popped[..n]), n, popped[n].first, popped[n].second)
  }

  lemma SamePops(l: Loop, popped: seq<Popped>, more: seq<Popped>, n: nat)
    requires popped <= more && n < |popped|
    ensures PopsFullest(l, popped, n) <==> PopsFullest(l, more, n)
  {
    assert popped[..n] == more[..n];
  }

  lemma IterationsBefore(m0: PodMap, entries: multiset<NodeInfo>, popped: seq<Popped>, n: nat)
    requires Iterations(m0, entries, popped) && n <= |popped|
    ensures Iterations(m0, entries, popped[..n])
  {
    forall i | 0 <= i < n ensures PopsFullest(Loop(m0, entries), popped[..n], i) {
      SamePops(Loop(m0, entries), popped[..n], popped, i);
    }
  }

  lemma IterationsNext(m0: PodMap, entries: multiset<NodeInfo>, popped: seq<Popped>, p: Popped)
    requires Iterations(m0, entries, popped)
    requires TwoFullest(Replay(Loop(m0, entries), popped).entries, p.first, p.second)
    ensures Iterations(m0, entries, popped + [p])
  {
    var all := popped + [p];
    assert PopsFullest(Loop(m0, entries), all, |popped|) by {
      assert all[..|popped|] == popped;
    }
    forall i | 0 <= i < |all| ensures PopsFullest(Loop(m0, entries), all, i) {
      if i < |popped| {
        SamePops(Loop(m0, entries), popped, all, i);
      }
    }
  }

  lemma ReplayExtended(l: Loop, popped: seq<Popped>, p: Popped)
    ensures Replay(l, popped + [p]) == Iterated(Replay(l, popped), p)
    ensures PairsOf(l, popped + [p]) ==
      NextPairs(Replay(l, popped).lists, PairsOf(l, popped), |popped|, p.first, p.second)
  {
    assert (popped + [p])[..|popped|] == popped;
  }

  /** Every iteration keeps the invariant of the loop. */
  lemma {:induction false} IterationsKeep(m0: PodMap, entries: multiset<NodeInfo>, popped: seq<Popped>)
    requires Iterations(m0, entries, popped)
    ensures
      var l := Replay(Loop(m0, entries), popped);
      LoopInvariant(m0, l.lists, l.entries, DrawsOf(popped), DroppedOf(popped), PairsOf(Loop(m0, entries), popped), |popped|)
  {
    if popped == [] {
      LoopStarts(m0, entries);
    } else {
      var n := |popped| - 1;
      var before, p := popped[..n], popped[n];
      IterationsBefore(m0, entries, popped, n);
      IterationsKeep(m0, entries, before);
      assert PopsFullest(Loop(m0, entries), popped, n);
      var l := Replay(Loop(m0, entries), before);
      Iteration(m0, l.lists, l.entries, DrawsOf(before), DroppedOf(before), PairsOf(Loop(m0, entries), before), n,
                p.first, p.second);
    }
  }

  lemma IterationsAgree(m0: PodMap, entries: multiset<NodeInfo>, popped: seq<Popped>)
    requires Iterations(m0, entries, popped)
    ensures
      var l := Replay(Loop(m0, entries), popped);
      HeapAgrees(l.entries, l.lists)
  {
    IterationsKeep(m0, entries, popped);
  }

  lemma IterationsEnd(m0: PodMap, entries: multiset<NodeInfo>, popped: seq<Popped>, left: seq<NodeInfo>)
    requires Iterations(m0, entries, popped) && |left| <= 1
    requires Replay(Loop(m0, entries), popped).entries == multiset(left)
    ensures Paired(m0, Replay(Loop(m0, entries), popped).lists, DrawsOf(popped), DroppedOf(popped),
                   PairsOf(Loop(m0, entries), popped))
  {
    IterationsKeep(m0, entries, popped);
    LoopEnds(m0, Replay(Loop(m0, entries), popped).lists, left, DrawsOf(popped), DroppedOf(popped),
             PairsOf(Loop(m0, entries), popped), |popped|);
  }

  lemma DrawsSoFar(m0: PodMap, entries: multiset<NodeInfo>, popped: seq<Popped>, n: nat)
    requires Iterations(m0, entries, popped) && n < |popped| && popped[n].second.numberOfPods > 0
    ensures |DrawsOf(popped[..n])| == n
    ensures popped[n].second.numberOfPods <= popped[n].first.numberOfPods
  {
    var l, p := Replay(Loop(m0, entries), popped[..n]), popped[n];
    assert Iterations(m0, entries, popped[..n]) by {
      IterationsBefore(m0, entries, popped, n);
    }
    IterationsKeep(m0, entries, popped[..n]);
    assert TwoFullest(l.entries, p.first, p.second) by {
      assert PopsFullest(Loop(m0, entries), popped, n);
    }
    NotYetOneNode(m0, l, DrawsOf(popped[..n]), DroppedOf(popped[..n]), PairsOf(Loop(m0, entries), popped[..n]), n, p);
  }

  lemma NotYetOneNode(m0: PodMap, l: Loop, draws: seq<Draw>, dropped: set<Slot>, pairs: seq<PodPair>, n: nat, p: Popped)
    requires LoopInvariant(m0, l.lists, l.entries, draws, dropped, pairs, n)
    requires TwoFullest(l.entries, p.first, p.second) && p.second.numberOfPods > 0
    ensures |draws| == n && p.second.numberOfPods <= p.first.numberOfPods
  {
    DrawnPods(m0, l.lists, l.entries, p.first, p.second);
  }

  /** The pair of an iteration is drawn from the two nodes it pops: the source from the fuller. */
  lemma DrawOfIteration(m0: PodMap, entries: multiset<NodeInfo>, popped: seq<Popped>, n: nat)
    requires Iterations(m0, entries, popped) && n < |popped| && popped[n].second.numberOfPods > 0
    ensures popped[n].second.numberOfPods <= popped[n].first.numberOfPods
    ensures n < |DrawsOf(popped)|
    ensures DrawsOf(popped)[n].source == Slot(popped[n].first.nodeName, popped[n].first.numberOfPods - 1)
    ensures DrawsOf(popped)[n].destination == Slot(popped[n].second.nodeName, popped[n].second.numberOfPods - 1)
  {
    DrawsSoFar(m0, entries, popped, n);
    DrawAppended(popped, n);
    DrawsGrow(popped, n + 1);
  }

  lemma DrawAppended(popped: seq<Popped>, n: nat)
    requires n < |popped| && |DrawsOf(popped[..n])| == n
    requires 0 < popped[n].second.numberOfPods <= popped[n].first.numberOfPods
    ensures |DrawsOf(popped[..n + 1])| == n + 1
    ensures DrawsOf(popped[..n + 1])[n].source == Slot(popped[n].first.nodeName, popped[n].first.numberOfPods - 1)
    ensures DrawsOf(popped[..n + 1])[n].destination == Slot(popped[n].second.nodeName, popped[n].second.numberOfPods - 1)
  {
    assert popped[..n + 1][..n] == popped[..n];
  }

  lemma {:induction false} DrawsGrow(popped: seq<Popped>, n: nat)
    requires n <= |popped|
    ensures DrawsOf(popped[..n]) <= DrawsOf(popped)
  {
    if n == |popped| {
      assert popped[..n] == popped;
    } else {
      var k := |popped| - 1;
      DrawsGrow(popped[..k], n);
      assert popped[..k][..n] == popped[..n];
    }
  }

  // ---------- when the error branch is taken ----------

  /** The iteration takes the error branch: one of its two nodes yields no pod. */
  ghost predicate Errs(l: Loop, p: Popped) {
    LastPod(l.lists, p.first.nodeName).None? || LastPod(Taken(l.lists, p.first.nodeName), p.second.nodeName).None?
  }

  lemma ErrsIff(l: Loop, p: Popped)
    requires HeapAgrees(l.entries, l.lists) && TwoFullest(l.entries, p.first, p.second)
    ensures Errs(l, p) <==> p.second.numberOfPods == 0
  {
    if p.second.numberOfPods > 0 {
      DrawnPods(l.lists, l.lists, l.entries, p.first, p.second);
    } else {
      NothingDrawn(l.lists, l.entries, p.first, p.second);
    }
  }

  /** What an iteration looks at: the leftover, the empty nodes and the number of pods. */
  datatype Figures = Figures(leftover: int, empty: nat, pods: int)

  ghost function FiguresOf(l: Loop): Figures {
    Figures(Leftover(l.lists), |EmptyEntries(l.entries)|, |Slots(l.lists)|)
  }

  /** An iteration without error takes two pods and changes neither the leftover nor the empty nodes;
      it comes to an error only with an empty node and something for it to meet. */
  lemma FiguresAfter(l: Loop, p: Popped)
    requires HeapAgrees(l.entries, l.lists) && TwoFullest(l.entries, p.first, p.second)
    ensures !Errs(l, p) ==> FiguresOf(Iterated(l, p)) == FiguresOf(l).(pods := FiguresOf(l).pods - 2)
    ensures Errs(l, p) ==> FiguresOf(l).empty > 1 || (FiguresOf(l).empty == 1 && FiguresOf(l).leftover > 0)
  {
    ErrsIff(l, p);
    if p.second.numberOfPods > 0 {
      PairChanges(l.entries, l.lists, p.first, p.second);
      EmptyEntriesAfter(l.entries, l.lists, p.first, p.second);
      PairShrinks(l.lists, l.entries, p.first, p.second);
    } else {
      EmptyMet(l, p);
    }
  }

  lemma EmptyMet(l: Loop, p: Popped)
    requires HeapAgrees(l.entries, l.lists) && TwoFullest(l.entries, p.first, p.second) && p.second.numberOfPods == 0
    ensures FiguresOf(l).empty > 1 || (FiguresOf(l).empty == 1 && FiguresOf(l).leftover > 0)
  {
    var empty := EmptyEntries(l.entries);
    assert p.second in empty;
    if p.first.numberOfPods == 0 {
      assert p.first in empty;
      SubsetSize({p.first, p.second}, empty);
    } else {
      DropChanges(l.entries, l.lists, p.first, p.second);
    }
  }

  ghost predicate ErrsAt(l: Loop, popped: seq<Popped>, n: nat)
    requires n < |popped|
  {
    Errs(Replay(l, popped[..n]), popped[n])
  }

  /** How the figures go from one iteration to the next. */
  predicate FiguresGo(f: Figures, errs: bool, f': Figures) {
    if errs then f.empty > 1 || (f.empty == 1 && f.leftover > 0) else f' == f.(pods := f.pods - 2)
  }

  lemma ReplayNext(l: Loop, popped: seq<Popped>, n: nat)
    requires n < |popped|
    ensures Replay(l, popped[..n + 1]) == Iterated(Replay(l, popped[..n]), popped[n])
  {
    assert popped[..n + 1][..n] == popped[..n];
  }

  lemma FiguresStep(m0: PodMap, entries: multiset<NodeInfo>, popped: seq<Popped>, n: nat)
    requires Iterations(m0, entries, popped) && n < |popped|
    ensures
      var l := Loop(m0, entries);
      FiguresGo(FiguresOf(Replay(l, popped[..n])), ErrsAt(l, popped, n), FiguresOf(Replay(l, popped[..n + 1])))
  {
    var l, p := Replay(Loop(m0, entries), popped[..n]), popped[n];
    IterationsBefore(m0, entries, popped, n);
    IterationsAgree(m0, entries, popped[..n]);
    ReplayNext(Loop(m0, entries), popped, n);
    assert PopsFullest(Loop(m0, entries), popped, n);
    FiguresAfter(l, p);
  }

  ghost function FiguresRun(l: Loop, popped: seq<Popped>): seq<Figures> {
    seq(|popped| + 1, n requires 0 <= n <= |popped| => FiguresOf(Replay(l, popped[..n])))
  }

  ghost function ErrsRun(l: Loop, popped: seq<Popped>): seq<bool> {
    seq(|popped|, n requires 0 <= n < |popped| => ErrsAt(l, popped, n))
  }

  ghost predicate FiguresGoOn(figures: seq<Figures>, errs: seq<bool>) {
    |figures| == |errs| + 1 && forall n :: 0 <= n < |errs| ==> FiguresGo(figures[n], errs[n], figures[n + 1])
  }

  lemma {:induction false} FiguresAt(figures: seq<Figures>, errs: seq<bool>, n: nat)
    requires FiguresGoOn(figures, errs) && n <= |errs| && forall i :: 0 <= i < n ==> !errs[i]
    ensures figures[n] == figures[0].(pods := figures[0].pods - 2 * n)
  {
    if n == 0 {
    } else {
      FiguresAt(figures, errs, n - 1);
      assert FiguresGo(figures[n - 1], errs[n - 1], figures[n]);
    }
  }

  predicate ErrorFreeFigures(f: Figures) {
    f.empty == 0 || (f.empty == 1 && f.leftover == 0)
  }

  lemma {:induction false} ErrorFreeNeverErrs(figures: seq<Figures>, errs: seq<bool>, n: nat)
    requires FiguresGoOn(figures, errs) && n <= |errs| && ErrorFreeFigures(figures[0])
    ensures forall i :: 0 <= i < n ==> !errs[i]
  {
    if n == 0 {
    } else {
      ErrorFreeNeverErrs(figures, errs, n - 1);
      FiguresAt(figures, errs, n - 1);
      assert FiguresGo(figures[n - 1], errs[n - 1], figures[n]);
    }
  }

  lemma ExhaustedFigures(l: Loop, nodes: seq<NodeInfo>)
    requires HeapAgrees(l.entries, l.lists) && l.entries == multiset(nodes) && |nodes| <= 1
    ensures FiguresOf(l).pods == FiguresOf(l).leftover
    ensures ErrorFreeFigures(FiguresOf(l))
  {
    HeapExhausted(l.lists, nodes);
    AtMostOneEmpty(nodes);
  }

  lemma AtMostOneEmpty(nodes: seq<NodeInfo>)
    requires |nodes| <= 1
    ensures |EmptyEntries(multiset(nodes))| <= 1
  {
    var all := if nodes == [] then {} else {nodes[0]};
    SubsetSize(EmptyEntries(multiset(nodes)), all);
  }

  /** No node began empty, or a single one and no pod is left over for it to meet. */
  ghost predicate ErrorFree(m: PodMap) {
    |EmptyNodes(m)| == 0 || (|EmptyNodes(m)| == 1 && Leftover(m) == 0)
  }

  lemma RunFigures(m0: PodMap, entries: multiset<NodeInfo>, popped: seq<Popped>)
    requires Iterations(m0, entries, popped)
    ensures
      var l := Loop(m0, entries);
      && FiguresGoOn(FiguresRun(l, popped), ErrsRun(l, popped))
      && FiguresRun(l, popped)[0] == Figures(Leftover(m0), |EmptyNodes(m0)|, |Slots(m0)|)
  {
    var l := Loop(m0, entries);
    var figures, errs := FiguresRun(l, popped), ErrsRun(l, popped);
    forall n | 0 <= n < |errs| ensures FiguresGo(figures[n], errs[n], figures[n + 1]) {
      FiguresStep(m0, entries, popped, n);
    }
  }

  lemma LastFigures(m0: PodMap, entries: multiset<NodeInfo>, popped: seq<Popped>, left: seq<NodeInfo>)
    requires Iterations(m0, entries, popped) && |left| <= 1
    requires Replay(Loop(m0, entries), popped).entries == multiset(left)
    ensures
      var f := FiguresRun(Loop(m0, entries), popped)[|popped|];
      f.pods == f.leftover && ErrorFreeFigures(f)
  {
    assert popped[..|popped|] == popped;
    IterationsAgree(m0, entries, popped);
    ExhaustedFigures(Replay(Loop(m0, entries), popped), left);
  }

  lemma ErrorFreeRun(figures: seq<Figures>, errs: seq<bool>)
    requires FiguresGoOn(figures, errs)
    requires ErrorFreeFigures(figures[|errs|]) && figures[|errs|].pods == figures[|errs|].leftover
    ensures (forall n :: 0 <= n < |errs| ==> !errs[n]) <==> ErrorFreeFigures(figures[0])
    ensures ErrorFreeFigures(figures[0]) ==> figures[0].pods == figures[0].leftover + 2 * |errs|
    ensures ErrorFreeFigures(figures[0]) ==> forall n :: 0 <= n <= |errs| ==> figures[n].pods == figures[0].pods - 2 * n
  {
    if ErrorFreeFigures(figures[0]) {
      ErrorFreeNeverErrs(figures, errs, |errs|);
    }
    if forall n :: 0 <= n < |errs| ==> !errs[n] {
      FiguresAt(figures, errs, |errs|);
      forall n | 0 <= n <= |errs| ensures figures[n].pods == figures[0].pods - 2 * n {
        FiguresAt(figures, errs, n);
      }
    }
  }

  /** The error branch is never taken exactly when the lists are free of errors to begin with. Then
      there is one iteration a pair, and each finds two pods fewer than the one before. */
  lemma ErrorFreeIff(m0: PodMap, entries: multiset<NodeInfo>, popped: seq<Popped>, left: seq<NodeInfo>)
    requires Iterations(m0, entries, popped) && |left| <= 1
    requires Replay(Loop(m0, entries), popped).entries == multiset(left)
    ensures
      var figures, errs := FiguresRun(Loop(m0, entries), popped), ErrsRun(Loop(m0, entries), popped);
      && ((forall n :: 0 <= n < |popped| ==> !errs[n]) <==> ErrorFree(m0))
      && (ErrorFree(m0) ==> |popped| == BestPairCount(m0))
      && (ErrorFree(m0) ==> forall n :: 0 <= n <= |popped| ==> figures[n].pods == |Slots(m0)| - 2 * n)
  {
    RunFigures(m0, entries, popped);
    LastFigures(m0, entries, popped, left);
    ErrorFreeRun(FiguresRun(Loop(m0, entries), popped), ErrsRun(Loop(m0, entries), popped));
    BestPairCountIsTight(m0);
  }

  /** One pod and an empty node are enough for the error branch. */
  lemma EmptyNodeMeetsPod(m0: PodMap, a: string, b: string)
    requires a != b && m0.Keys == {a, b} && |m0[a]| == 1 && m0[b] == []
    ensures EmptyNodes(m0) == {b} && Leftover(m0) == 1 && !ErrorFree(m0)
  {
    OnlyEmptyNode(m0, a, b);
    assert Leftover(m0) == 1 by {
      OneNodeLeftover(m0, a);
    }
  }

  lemma OnlyEmptyNode(m: PodMap, a: string, b: string)
    requires m.Keys == {a, b} && m[a] != [] && m[b] == []
    ensures EmptyNodes(m) == {b}
  {
    forall k ensures k in EmptyNodes(m) <==> k == b {
      assert k in m <==> k in {a, b};
    }
  }

  /** So the error branch is out of reach of lists filled by `AddPodWorker`. */
  lemma CollectedNeverErrs(m0: PodMap, entries: multiset<NodeInfo>, popped: seq<Popped>, left: seq<NodeInfo>, n: nat)
    requires Collected(m0) && Iterations(m0, entries, popped) && |left| <= 1 && n < |popped|
    requires Replay(Loop(m0, entries), popped).entries == multiset(left)
    ensures !ErrsAt(Loop(m0, entries), popped, n)
  {
    ErrorFreeIff(m0, entries, popped, left);
    assert ErrsRun(Loop(m0, entries), popped)[n] == ErrsAt(Loop(m0, entries), popped, n);
  }

  /** How the lists look when they were filled by `AddPodWorker` alone. */
  ghost predicate Collected(m: PodMap) {
    && EmptyNodes(m) == {}
    && forall k, i :: k in m && 0 <= i < |m[k]| ==> m[k][i].workerNode == k
  }

  lemma {:induction false} DrawsCrossNodes(m0: PodMap, draws: seq<Draw>, j: nat)
    requires Pairing(m0, draws) && j < |draws|
    ensures draws[j].source in Slots(m0) && draws[j].destination in Slots(m0)
    ensures draws[j].source.node != draws[j].destination.node
  {
    if j < |draws| - 1 {
      DrawsCrossNodes(m0, draws[..|draws| - 1], j);
    }
  }

  /** For collected pods, every pair joins pods of two different nodes. */
  lemma CollectedCrossNodes(m0: PodMap, draws: seq<Draw>, j: nat)
    requires Collected(m0) && Pairing(m0, draws) && j < |draws|
    ensures draws[j].source in Slots(m0) && draws[j].destination in Slots(m0)
    ensures PodAt(m0, draws[j].source).workerNode != PodAt(m0, draws[j].destination).workerNode
  {
    DrawsCrossNodes(m0, draws, j);
  }

  /** For collected pods, every pod is used or left in its list. */
  lemma CollectedKeepsPods(m0: PodMap, m: PodMap, draws: seq<Draw>, dropped: set<Slot>, pairs: seq<PodPair>)
    requires Collected(m0) && Paired(m0, m, draws, dropped, pairs)
    ensures Slots(m0) == Used(draws) + Slots(m) && Used(draws) !! Slots(m)
  {
    LostPods(m0, m, draws, dropped, pairs);
  }

  class WorkerPodInfo {
    var workerPodMap: PodMap

    constructor ()
      ensures workerPodMap == map[] && Collected(workerPodMap)
    {
      workerPodMap := map[];
    }

    /** Lists a worker pod under its node. */
    method AddPodWorker(data: WorkerPod)
      modifies this
      ensures workerPodMap.Keys == old(workerPodMap.Keys) + {data.workerNode}
      ensures forall k :: k in workerPodMap && k != data.workerNode ==> workerPodMap[k] == old(workerPodMap)[k]
      ensures workerPodMap[data.workerNode]
           == (if data.workerNode in old(workerPodMap) then old(workerPodMap)[data.workerNode] else []) + [data]
      ensures old(Collected(workerPodMap)) ==> Collected(workerPodMap)
    {
      if data.workerNode !in workerPodMap {
        workerPodMap := workerPodMap[data.workerNode := []];
      }
      workerPodMap := workerPodMap[data.workerNode := workerPodMap[data.workerNode] + [data]];
    }

    /** Takes the last pod of a node; a node found without pods is forgotten. */
    method Pop(nodeName: string) returns (pod: Option<WorkerPod>)
      modifies this
      ensures workerPodMap == Taken(old(workerPodMap), nodeName)
      ensures pod == LastPod(old(workerPodMap), nodeName)
    {
      if nodeName !in workerPodMap {
        return None;
      }
      var list := workerPodMap[nodeName];
      if list == [] {
        workerPodMap := workerPodMap - {nodeName};
        return None;
      }
      workerPodMap := workerPodMap[nodeName := list[..|list| - 1]];
      return Some(list[|list| - 1]);
    }

    /** One heap entry per node, in whatever order the map is walked. */
    method NodeEntries() returns (entries: seq<NodeInfo>)
      ensures EntriesFor(multiset(entries), workerPodMap)
    {
      entries := [];
      var todo := workerPodMap.Keys;
      NoEntries(workerPodMap);
      while todo != {}
        invariant todo <= workerPodMap.Keys && EntriesFor(multiset(entries), workerPodMap - todo)
        decreases todo
      {
        var k :| k in todo;
        EntryForNext(entries, workerPodMap, todo, k);
        entries := entries + [NodeInfo(k, |workerPodMap[k]|)];
        todo := todo - {k};
      }
      assert workerPodMap - todo == workerPodMap;
    }

    /** The lists' part of one iteration: take one pod of each node and, if both had one, pair them. */
    method TakePair(first: NodeInfo, second: NodeInfo, i: nat, pairs: seq<PodPair>) returns (pairs': seq<PodPair>)
      modifies this
      ensures workerPodMap == Next(old(workerPodMap), first, second)
      ensures pairs' == NextPairs(old(workerPodMap), pairs, i, first, second)
    {
      var source := Pop(first.nodeName);
      var destination := Pop(second.nodeName);
      if source.None? || destination.None? {
        return pairs;
      }
      return pairs + [NewPodPair(i, source.value, destination.value)];
    }

    /** Forms as many cross-node pairs as any pairing could. `heaped` are the nodes as put into the
        heap, `popped` those of each iteration, and `left` the ones never popped. */
    method FormUniquePodPair()
      returns (pairs: seq<PodPair>, ghost heaped: seq<NodeInfo>, ghost popped: seq<Popped>, ghost left: seq<NodeInfo>)
      modifies this
      ensures Iterations(old(workerPodMap), multiset(heaped), popped) && |left| <= 1
      ensures Replay(Loop(old(workerPodMap), multiset(heaped)), popped) == Loop(workerPodMap, multiset(left))
      ensures Paired(old(workerPodMap), workerPodMap, DrawsOf(popped), DroppedOf(popped), pairs)
    {
      var entries := NodeEntries();
      heaped := entries;
      ghost var m0, all := workerPodMap, multiset(heaped);
      var heap := new NodeHeap(entries);
      heap.Init();
      pairs, popped := [], [];
      var i := 0;
      while |heap.nodes| > 1
        invariant heap.Valid()
        invariant Iterations(m0, all, popped) && i == |popped|
        invariant Replay(Loop(m0, all), popped) == Loop(workerPodMap, multiset(heap.nodes))
        invariant pairs == PairsOf(Loop(m0, all), popped)
        decreases |Slots(workerPodMap)| + |heap.nodes|
      {
        IterationsAgree(m0, all, popped);
        ghost var lists, before := workerPodMap, multiset(heap.nodes);
        var first, second := PopTwoFullest(heap, workerPodMap);
        pairs := TakePair(first, second, i, pairs);
        IterationShrinks(lists, before, first, second);
        IterationsNext(m0, all, popped, Popped(first, second));
        ReplayExtended(Loop(m0, all), popped, Popped(first, second));
        popped := popped + [Popped(first, second)];
        i := i + 1;
      }
      left := heap.nodes;
      IterationsEnd(m0, all, popped, left);
    }
  }
}
