/** The heap of nodes, fullest first, that the pod pairing loop pops from and pushes to.

    `Swap`, `Append` and `RemoveLast` are the nodeHeap methods; `Up`, `Down`, `Init`, `Push` and
    `Pop` are the container/heap operations the loop reaches them through.
 */
module NodeHeaps {

  datatype NodeInfo = NodeInfo(nodeName: string, numberOfPods: nat)

  /** The ordering handed to container/heap: a fuller node comes first. */
  predicate Less(a: NodeInfo, b: NodeInfo) {
    a.numberOfPods > b.numberOfPods
  }

  function Parent(c: nat): nat
    requires c > 0
  {
    (c - 1) / 2
  }

  /** Entry `c` is no fuller than its parent. */
  ghost predicate Settled(s: seq<NodeInfo>, c: nat)
    requires 0 < c < |s|
  {
    !Less(s[c], s[Parent(c)])
  }

  /** Every entry below `hi` whose parent is at `lo` or later is settled. */
  ghost predicate Ordered(s: seq<NodeInfo>, lo: nat, hi: nat)
    requires hi <= |s|
  {
    forall c :: 0 < c < hi && lo <= Parent(c) ==> Settled(s, c)
  }

  /** As `Ordered`, but for the children of `hole`, which are only known to be no fuller than
      the parent of `hole`. */
  ghost predicate OrderedButBelow(s: seq<NodeInfo>, lo: nat, hi: nat, hole: nat)
    requires hole < hi <= |s|
  {
    && (forall c :: 0 < c < hi && lo <= Parent(c) && Parent(c) != hole ==> Settled(s, c))
    && ChildrenBelowGrandparent(s, lo, hi, hole)
  }

  /** As `Ordered` for the whole heap, but for `leaf`, whose children are no fuller than its parent. */
  ghost predicate OrderedButAt(s: seq<NodeInfo>, leaf: nat)
    requires leaf < |s|
  {
    && (forall c :: 0 < c < |s| && c != leaf ==> Settled(s, c))
    && ChildrenBelowGrandparent(s, 0, |s|, leaf)
  }

  ghost predicate ChildrenBelowGrandparent(s: seq<NodeInfo>, lo: nat, hi: nat, hole: nat)
    requires hole < hi <= |s|
  {
    hole > 0 && lo <= Parent(hole) ==>
      forall c :: 0 < c < hi && Parent(c) == hole ==> !Less(s[c], s[Parent(hole)])
  }

  ghost function Swapped(s: seq<NodeInfo>, i: nat, j: nat): (r: seq<NodeInfo>)
    requires i < |s| && j < |s|
  {
    s[i := s[j]][j := s[i]]
  }

  /** Swapping a hole with its fuller child moves the hole down. */
  lemma DownStep(s: seq<NodeInfo>, lo: nat, hi: nat, i: nat, j: nat)
    requires lo <= i < j < hi <= |s| && Parent(j) == i
    requires OrderedButBelow(s, lo, hi, i)
    requires Less(s[j], s[i])
    requires forall c :: 0 < c < hi && Parent(c) == i ==> !Less(s[c], s[j])
    ensures OrderedButBelow(Swapped(s, i, j), lo, hi, j)
  {
    var t := Swapped(s, i, j);
    forall c | 0 < c < hi && lo <= Parent(c) && Parent(c) != j
      ensures Settled(t, c)
    {
      assert Parent(c) != i ==> Settled(s, c);
    }
    forall c | 0 < c < hi && Parent(c) == j
      ensures !Less(t[c], t[i])
    {
      assert Settled(s, c);
    }
  }

  /** The children of `i` are `2i + 1` and `2i + 2`. */
  lemma Children(i: nat, c: nat)
    requires c > 0
    ensures Parent(c) == i <==> c == 2 * i + 1 || c == 2 * i + 2
  {
  }

  ghost predicate IsFullerChild(s: seq<NodeInfo>, hi: nat, i: nat, j: nat)
    requires 2 * i + 1 < hi <= |s|
  {
    j == if 2 * i + 2 < hi && Less(s[2 * i + 2], s[2 * i + 1]) then 2 * i + 2 else 2 * i + 1
  }

  lemma FullerChild(s: seq<NodeInfo>, hi: nat, i: nat, j: nat)
    requires 2 * i + 1 < hi <= |s| && IsFullerChild(s, hi, i, j)
    ensures Parent(j) == i
    ensures forall c :: 0 < c < hi && Parent(c) == i ==> !Less(s[c], s[j])
  {
    forall c | 0 < c < hi && Parent(c) == i ensures !Less(s[c], s[j]) {
      Children(i, c);
    }
  }

  /** Where the hole's children are no fuller than the hole, the order is restored. */
  lemma DownDone(s: seq<NodeInfo>, lo: nat, hi: nat, i: nat)
    requires i < hi <= |s| && OrderedButBelow(s, lo, hi, i)
    requires forall c :: 0 < c < hi && Parent(c) == i ==> !Less(s[c], s[i])
    ensures Ordered(s, lo, hi)
  {
  }

  lemma DownAtLeaf(s: seq<NodeInfo>, lo: nat, hi: nat, i: nat)
    requires i < hi <= |s| && OrderedButBelow(s, lo, hi, i) && 2 * i + 1 >= hi
    ensures Ordered(s, lo, hi)
  {
    forall c | 0 < c < hi ensures Parent(c) != i {
      Children(i, c);
    }
    DownDone(s, lo, hi, i);
  }

  lemma DownAtFuller(s: seq<NodeInfo>, lo: nat, hi: nat, i: nat, j: nat)
    requires i < hi <= |s| && OrderedButBelow(s, lo, hi, i) && j < hi && !Less(s[j], s[i])
    requires forall c :: 0 < c < hi && Parent(c) == i ==> !Less(s[c], s[j])
    ensures Ordered(s, lo, hi)
  {
    DownDone(s, lo, hi, i);
  }

  /** On the way down: `s` holds what `s0` held, unchanged from `hi` on, and is in order but below `i`. */
  ghost predicate Sinking(s0: seq<NodeInfo>, s: seq<NodeInfo>, lo: nat, hi: nat, i: nat) {
    lo <= i < hi <= |s| && Rearranged(s0, s, hi) && OrderedButBelow(s, lo, hi, i)
  }

  ghost predicate Rearranged(s0: seq<NodeInfo>, s: seq<NodeInfo>, hi: nat) {
    |s| == |s0| && hi <= |s| && s[hi..] == s0[hi..] && multiset(s) == multiset(s0)
  }

  lemma SwapRearranges(s0: seq<NodeInfo>, s: seq<NodeInfo>, hi: nat, i: nat, j: nat)
    requires Rearranged(s0, s, hi) && i < j < hi
    ensures Rearranged(s0, Swapped(s, i, j), hi)
  {
    assert Swapped(s, i, j)[hi..] == s[hi..];
  }

  lemma SinksFurther(s0: seq<NodeInfo>, s: seq<NodeInfo>, lo: nat, hi: nat, i: nat, j: nat)
    requires Sinking(s0, s, lo, hi, i) && 2 * i + 1 < hi && IsFullerChild(s, hi, i, j) && Less(s[j], s[i])
    ensures Sinking(s0, Swapped(s, i, j), lo, hi, j)
  {
    FullerChild(s, hi, i, j);
    DownStep(s, lo, hi, i, j);
    SwapRearranges(s0, s, hi, i, j);
  }

  lemma SunkAtFuller(s0: seq<NodeInfo>, s: seq<NodeInfo>, lo: nat, hi: nat, i: nat, j: nat)
    requires Sinking(s0, s, lo, hi, i) && 2 * i + 1 < hi && IsFullerChild(s, hi, i, j) && !Less(s[j], s[i])
    ensures Rearranged(s0, s, hi) && Ordered(s, lo, hi)
  {
    FullerChild(s, hi, i, j);
    DownAtFuller(s, lo, hi, i, j);
  }

  lemma SunkAtLeaf(s0: seq<NodeInfo>, s: seq<NodeInfo>, lo: nat, hi: nat, i: nat)
    requires Sinking(s0, s, lo, hi, i) && 2 * i + 1 >= hi
    ensures Rearranged(s0, s, hi) && Ordered(s, lo, hi)
  {
    DownAtLeaf(s, lo, hi, i);
  }

  /** Swapping a leaf with its emptier parent moves the exception up. */
  lemma UpStep(s: seq<NodeInfo>, j: nat)
    requires 0 < j < |s|
    requires OrderedButAt(s, j)
    requires Less(s[j], s[Parent(j)])
    ensures OrderedButAt(Swapped(s, Parent(j), j), Parent(j))
  {
    var i := Parent(j);
    var t := Swapped(s, i, j);
    forall c | 0 < c < |s| && c != i
      ensures Settled(t, c)
    {
      assert c != j ==> Settled(s, c);
    }
    if i > 0 {
      assert Settled(s, i);
      forall c | 0 < c < |t| && Parent(c) == i
        ensures !Less(t[c], t[Parent(i)])
      {
        assert c != j ==> Settled(s, c);
      }
    }
  }

  /** The root of an ordered heap is a fullest entry. */
  lemma {:induction false} RootIsFullest(s: seq<NodeInfo>, i: nat)
    requires i < |s| && Ordered(s, 0, |s|)
    ensures s[i].numberOfPods <= s[0].numberOfPods
  {
    if i == 0 {
    } else {
      RootIsFullest(s, Parent(i));
      assert Settled(s, i);
    }
  }

  class NodeHeap {
    var nodes: seq<NodeInfo>

    ghost predicate Valid()
      reads this
    {
      Ordered(nodes, 0, |nodes|)
    }

    constructor (entries: seq<NodeInfo>)
      ensures nodes == entries
    {
      nodes := entries;
    }

    method Swap(i: nat, j: nat)
      requires i < |nodes| && j < |nodes|
      modifies this
      ensures nodes == Swapped(old(nodes), i, j)
      ensures multiset(nodes) == old(multiset(nodes))
    {
      nodes := nodes[i := nodes[j]][j := nodes[i]];
    }

    /** Restores the order below `i0` among the first `n` entries. */
    method Down(i0: nat, n: nat)
      requires i0 < n <= |nodes|
      requires Ordered(nodes, i0 + 1, n)
      modifies this
      ensures Rearranged(old(nodes), nodes, n) && Ordered(nodes, i0, n)
    {
      var i := i0;
      while 2 * i + 1 < n
        invariant Sinking(old(nodes), nodes, i0, n, i)
        decreases n - i
      {
        var j := 2 * i + 1;
        if j + 1 < n && Less(nodes[j + 1], nodes[j]) {
          j := j + 1;
        }
        if !Less(nodes[j], nodes[i]) {
          SunkAtFuller(old(nodes), nodes, i0, n, i, j);
          return;
        }
        SinksFurther(old(nodes), nodes, i0, n, i, j);
        Swap(i, j);
        i := j;
      }
      SunkAtLeaf(old(nodes), nodes, i0, n, i);
    }

    /** Restores the order above `j0`, the only entry that may be fuller than its parent. */
    method Up(j0: nat)
      requires j0 < |nodes| && OrderedButAt(nodes, j0)
      modifies this
      ensures Valid()
      ensures multiset(nodes) == old(multiset(nodes))
    {
      var j := j0;
      while j > 0 && Less(nodes[j], nodes[(j - 1) / 2])
        invariant 0 <= j < |nodes| == old(|nodes|)
        invariant OrderedButAt(nodes, j)
        invariant multiset(nodes) == old(multiset(nodes))
      {
        UpStep(nodes, j);
        Swap((j - 1) / 2, j);
        j := (j - 1) / 2;
      }
    }

    method Init()
      modifies this
      ensures Valid()
      ensures multiset(nodes) == old(multiset(nodes))
    {
      var n := |nodes|;
      var i := n / 2;
      while i > 0
        invariant 0 <= i <= n / 2 && n == |nodes|
        invariant Ordered(nodes, i, n)
        invariant multiset(nodes) == old(multiset(nodes))
      {
        i := i - 1;
        Down(i, n);
      }
    }

    method Append(x: NodeInfo)
      modifies this
      ensures nodes == old(nodes) + [x]
    {
      nodes := nodes + [x];
    }

    method RemoveLast() returns (x: NodeInfo)
      requires |nodes| > 0
      modifies this
      ensures old(nodes) == nodes + [x]
    {
      x := nodes[|nodes| - 1];
      nodes := nodes[..|nodes| - 1];
    }

    method Push(x: NodeInfo)
      requires Valid()
      modifies this
      ensures Valid()
      ensures multiset(nodes) == old(multiset(nodes)) + multiset{x}
    {
      Append(x);
      Up(|nodes| - 1);
    }

    /** Removes and returns a fullest entry, and nothing else. */
    method Pop() returns (x: NodeInfo)
      requires Valid() && |nodes| > 0
      modifies this
      ensures Valid()
      ensures multiset(nodes) + multiset{x} == old(multiset(nodes))
      ensures forall e :: e in old(nodes) ==> e.numberOfPods <= x.numberOfPods
    {
      var n := |nodes| - 1;
      forall i | 0 <= i < |nodes| ensures nodes[i].numberOfPods <= nodes[0].numberOfPods {
        RootIsFullest(nodes, i);
      }
      Swap(0, n);
      if n > 0 {
        Down(0, n);
      }
      x := RemoveLast();
      assert old(nodes)[0] == x;
    }
  }
}
