/** NUMA nodes in mpstat: which node a CPU belongs to, and the split of the CPU counters among nodes. */
module NodeStats {
  import opened Arithmetic
  import opened CpuStats
  import opened CpuSampler
  import opened Folds

  // ----- get_node_placement

  /** The directory of a CPU: not there, without a node entry, or with one that names a node. */
  datatype CpuDir = Missing | NoNode | InNode(node: int)

  predicate Stops(d: CpuDir, nrCpus: nat) {
    d.Missing? || (d.InNode? && !(0 <= d.node < nrCpus))
  }

  /** The first CPU at which the scan gives up, or the number of CPUs. */
  function GivesUpAt(dirs: seq<CpuDir>, i: nat): (k: nat)
    requires i <= |dirs|
    ensures i <= k <= |dirs|
    ensures forall j :: i <= j < k ==> !Stops(dirs[j], |dirs|)
    decreases |dirs| - i
  {
    if i == |dirs| || Stops(dirs[i], |dirs|) then i else GivesUpAt(dirs, i + 1)
  }

  function NodeOf(d: CpuDir): int {
    if d.InNode? then d.node else -1
  }

  /** How many of the CPUs are in node `n`. */
  function CountOf(nodes: seq<int>, n: int): nat {
    if nodes == [] then 0 else CountOf(nodes[..|nodes| - 1], n) + if nodes[|nodes| - 1] == n then 1 else 0
  }

  lemma {:induction false} CountOfUnplaced(nodes: seq<int>, k: nat, n: int)
    requires k <= |nodes| && n >= 0 && forall j :: k <= j < |nodes| ==> nodes[j] == -1
    ensures CountOf(nodes, n) == CountOf(nodes[..k], n)
    decreases |nodes|
  {
    if |nodes| == k {
      assert nodes[..k] == nodes;
    } else {
      var m := |nodes| - 1;
      CountOfUnplaced(nodes[..m], k, n);
      assert nodes[..m][..k] == nodes[..k];
    }
  }

  method InitPlacement(nr: nat, cpuPerNode: array<nat>, cpu2node: array<int>)
    requires cpuPerNode.Length >= nr + 1 && cpu2node.Length >= nr && cpuPerNode as object != cpu2node as object
    modifies cpuPerNode, cpu2node
    ensures cpuPerNode[0] == nr && forall j :: 1 <= j < nr + 1 ==> cpuPerNode[j] == 0
    ensures forall j :: 0 <= j < nr ==> cpu2node[j] == -1
  {
    for i := 0 to nr + 1
      invariant forall j :: 0 <= j < i ==> cpuPerNode[j] == 0
    {
      cpuPerNode[i] := 0;
    }
    for i := 0 to nr
      invariant forall j :: 0 <= j < i ==> cpu2node[j] == -1
      invariant forall j :: 0 <= j < nr + 1 ==> cpuPerNode[j] == 0
    {
      cpu2node[i] := -1;
    }
    cpuPerNode[0] := nr;
  }

  /** cpu_per_node counts the CPUs of `placed`, node by node. */
  ghost predicate Counts(perNode: seq<nat>, placed: seq<int>, nr: nat) {
    |perNode| >= nr + 1 && perNode[0] == nr && forall n :: 0 <= n < nr ==> perNode[n + 1] == CountOf(placed, n)
  }

  lemma CountsStep(perNode: seq<nat>, placed: seq<int>, nr: nat, node: int)
    requires Counts(perNode, placed, nr) && -1 <= node < nr
    ensures Counts(if node == -1 then perNode else perNode[node + 1 := perNode[node + 1] + 1], placed + [node], nr)
  {
    var q := placed + [node];
    assert q[..|q| - 1] == placed;
  }

  lemma CountsEnd(perNode: seq<nat>, nodes: seq<int>, k: nat)
    requires k <= |nodes| && Counts(perNode, nodes[..k], |nodes|) && forall j :: k <= j < |nodes| ==> nodes[j] == -1
    ensures Counts(perNode, nodes, |nodes|)
  {
    forall n | 0 <= n < |nodes| ensures perNode[n + 1] == CountOf(nodes, n) { CountOfUnplaced(nodes, k, n); }
  }

  /** What has been placed when the scan stands at CPU number `cpu`. */
  function Placed(dirs: seq<CpuDir>, cpu: nat): seq<int>
    requires cpu <= |dirs|
  {
    seq(|dirs|, j requires 0 <= j < |dirs| => if j < cpu then NodeOf(dirs[j]) else -1)
  }

  /** The scan gets past the CPU: neither it nor one before it is missing or names a node out of range. */
  predicate Reached(dirs: seq<CpuDir>, cpu: nat)
    requires cpu < |dirs|
  {
    forall j :: 0 <= j <= cpu ==> dirs[j] != Missing && (dirs[j].InNode? ==> 0 <= dirs[j].node < |dirs|)
  }

  lemma PlacedIs(dirs: seq<CpuDir>, cpu: nat)
    requires cpu < |dirs|
    ensures Placed(dirs, GivesUpAt(dirs, 0))[cpu]
            == if Reached(dirs, cpu) && dirs[cpu].InNode? then dirs[cpu].node else -1
    ensures GivesUpAt(dirs, 0) == |dirs| <==> Reached(dirs, |dirs| - 1)
  {
    StopsThere(dirs, 0);
  }

  lemma {:induction false} StopsThere(dirs: seq<CpuDir>, i: nat)
    requires i <= |dirs|
    ensures GivesUpAt(dirs, i) < |dirs| ==> Stops(dirs[GivesUpAt(dirs, i)], |dirs|)
    decreases |dirs| - i
  {
    if i < |dirs| && !Stops(dirs[i], |dirs|) { StopsThere(dirs, i + 1); }
  }

  /** The number of CPUs in a node is how often cpu2node names it. */
  lemma {:induction false} CountIsMultiplicity(nodes: seq<int>, n: int)
    ensures CountOf(nodes, n) == multiset(nodes)[n]
  {
    if nodes != [] {
      var m := |nodes| - 1;
      CountIsMultiplicity(nodes[..m], n);
      assert nodes == nodes[..m] + [nodes[m]];
    }
  }

  ghost predicate Highest(nodes: seq<int>, high: int) {
    high >= -1 && (forall j :: 0 <= j < |nodes| ==> nodes[j] <= high) && (high == -1 || high in nodes)
  }

  method PlaceCpu(cpu: nat, node: nat, nr: nat, cpuPerNode: array<nat>, cpu2node: array<int>, high: int)
    returns (high': int)
    requires cpuPerNode.Length == nr + 1 && cpu2node.Length == nr && cpuPerNode as object != cpu2node as object
    requires cpu < nr && node < nr && Counts(cpuPerNode[..], cpu2node[..cpu], nr) && Highest(cpu2node[..cpu], high)
    requires high < nr
    modifies cpuPerNode, cpu2node
    ensures cpu2node[..] == old(cpu2node[..])[cpu := node]
    ensures Counts(cpuPerNode[..], cpu2node[..cpu + 1], nr) && Highest(cpu2node[..cpu + 1], high') && high' < nr
  {
    ghost var perNode, placed := cpuPerNode[..], cpu2node[..cpu];
    CountsStep(perNode, placed, nr, node);
    cpuPerNode[node + 1] := cpuPerNode[node + 1] + 1;
    cpu2node[cpu] := node;
    assert cpu2node[..cpu + 1] == placed + [node];
    high' := if node > high then node else high;
  }

  /**
    get_node_placement: whether or not the scan reaches the last CPU, cpu_per_node counts
    exactly the CPUs that cpu2node places; the result is the highest node, or -1.
   */
  method GetNodePlacement(dirs: seq<CpuDir>, cpuPerNode: array<nat>, cpu2node: array<int>) returns (high: int)
    requires cpuPerNode.Length == |dirs| + 1 && cpu2node.Length == |dirs| && cpuPerNode as object != cpu2node as object
    modifies cpuPerNode, cpu2node
    ensures cpu2node[..] == Placed(dirs, GivesUpAt(dirs, 0))
    ensures forall cpu :: 0 <= cpu < |dirs| ==>
              cpu2node[cpu] == if Reached(dirs, cpu) && dirs[cpu].InNode? then dirs[cpu].node else -1
    ensures if GivesUpAt(dirs, 0) < |dirs| then high == -1 else Highest(cpu2node[..], high)
    ensures Counts(cpuPerNode[..], cpu2node[..], |dirs|)
  {
    InitPlacement(|dirs|, cpuPerNode, cpu2node);
    high := -1;
    var cpu := 0;
    while cpu < |dirs|
      invariant cpu <= |dirs| && GivesUpAt(dirs, cpu) == GivesUpAt(dirs, 0)
      invariant cpu2node[..] == Placed(dirs, cpu) && Highest(cpu2node[..cpu], high) && high < |dirs|
      invariant Counts(cpuPerNode[..], cpu2node[..cpu], |dirs|)
    {
      if Stops(dirs[cpu], |dirs|) {
        high := -1;
        break;
      }
      if dirs[cpu].InNode? {
        high := PlaceCpu(cpu, dirs[cpu].node, |dirs|, cpuPerNode, cpu2node, high);
      } else {
        CountsStep(cpuPerNode[..], cpu2node[..cpu], |dirs|, -1);
        assert cpu2node[..cpu + 1] == cpu2node[..cpu] + [-1];
      }
      cpu := cpu + 1;
    }
    assert cpu == |dirs| ==> cpu2node[..cpu] == cpu2node[..];
    CountsEnd(cpuPerNode[..], cpu2node[..], cpu);
    forall j | 0 <= j < |dirs|
      ensures cpu2node[..][j] == if Reached(dirs, j) && dirs[j].InNode? then dirs[j].node else -1
    {
      PlacedIs(dirs, j);
    }
  }

  // ----- set_node_cpu_stats

  /**
    The node array of a sample: node "all" starts from CPU "all" and gets the CPUs without a
    node as well; entry k starts from zero and gets the CPUs of node k - 1.
   */
  function NodeEntries(all: Cpu, cpus: seq<Cpu>, keep: seq<bool>, nodes: seq<int>): seq<Cpu>
    requires |keep| == |cpus| == |nodes|
  {
    Entries(all, cpus, keep, nodes, |cpus| + 1, ZERO, Add)
  }

  ghost predicate SplitCpus(entries: seq<Cpu>, all: Cpu, cpus: seq<Cpu>, keep: seq<bool>, nodes: seq<int>, m: nat)
    requires |keep| == |cpus| == |nodes| && m <= |cpus|
  {
    |entries| == |cpus| + 1 && Split(entries, all, cpus, keep, nodes, m, ZERO, Add)
  }

  method InitNodes(all: Cpu, nodes: array<Cpu>, ghost cpus: seq<Cpu>, ghost keep: seq<bool>, ghost node: seq<int>)
    requires nodes.Length == |cpus| + 1 && |keep| == |cpus| == |node|
    modifies nodes
    ensures SplitCpus(nodes[..], all, cpus, keep, node, 0)
  {
    for i := 0 to nodes.Length
      invariant forall j :: 0 <= j < i ==> nodes[j] == ZERO
    {
      nodes[i] := ZERO;
    }
    nodes[0] := all;
  }

  /** One turn of the loop on one sample: a CPU that is kept is added to the entry of its node. */
  method AddToNode(cpu: nat, src: array<Cpu>, nodes: array<Cpu>, k: int, ghost all: Cpu, ghost keep: seq<bool>,
                   ghost node: seq<int>)
    requires cpu < |keep| == |node| == src.Length - 1 && src != nodes && k == node[cpu] && -1 <= k < |node|
    requires SplitCpus(nodes[..], all, src[1..], keep, node, cpu) && keep[cpu]
    modifies nodes
    ensures SplitCpus(nodes[..], all, src[1..], keep, node, cpu + 1)
  {
    SplitStep(nodes[..], all, src[1..], keep, node, cpu, ZERO, Add);
    ghost var was := nodes[..];
    nodes[k + 1] := Add(nodes[k + 1], src[cpu + 1]);
    assert nodes[..] == was[k + 1 := Add(was[k + 1], src[1..][cpu])];
  }

  lemma PassOver(entries: seq<Cpu>, all: Cpu, cpus: seq<Cpu>, keep: seq<bool>, nodes: seq<int>, m: nat)
    requires |keep| == |cpus| == |nodes| && m < |cpus| && -1 <= nodes[m] < |cpus| && !keep[m]
    requires SplitCpus(entries, all, cpus, keep, nodes, m)
    ensures SplitCpus(entries, all, cpus, keep, nodes, m + 1)
  {
    SplitStep(entries, all, cpus, keep, nodes, m, ZERO, Add);
  }

  /** set_node_cpu_stats, on the CPU buffers and node buffers of the reference and the current sample. */
  method SetNodeCpuStats(cpuPrev: array<Cpu>, cpuCurr: array<Cpu>, nodePrev: array<Cpu>, nodeCurr: array<Cpu>,
                         cpu2node: seq<int>, sinceBoot: bool)
    requires cpuPrev.Length == cpuCurr.Length == nodePrev.Length == nodeCurr.Length == |cpu2node| + 1
    requires nodePrev != nodeCurr && {nodePrev, nodeCurr} !! {cpuPrev, cpuCurr} && NodesWithin(cpu2node)
    modifies nodePrev, nodeCurr
    ensures nodePrev[..] == NodeEntries(cpuPrev[0], cpuPrev[1..], Counted(cpuPrev[1..], sinceBoot), cpu2node)
    ensures nodeCurr[..] == NodeEntries(cpuCurr[0], cpuCurr[1..], Counted(cpuPrev[1..], sinceBoot), cpu2node)
  {
    ghost var keep := Counted(cpuPrev[1..], sinceBoot);
    InitNodes(cpuPrev[0], nodePrev, cpuPrev[1..], keep, cpu2node);
    InitNodes(cpuCurr[0], nodeCurr, cpuCurr[1..], keep, cpu2node);
    for cpu := 0 to |cpu2node|
      invariant SplitCpus(nodePrev[..], cpuPrev[0], cpuPrev[1..], keep, cpu2node, cpu)
      invariant SplitCpus(nodeCurr[..], cpuCurr[0], cpuCurr[1..], keep, cpu2node, cpu)
    {
      if Total(cpuPrev[cpu + 1]) == 0 && !sinceBoot {
        PassOver(nodePrev[..], cpuPrev[0], cpuPrev[1..], keep, cpu2node, cpu);
        PassOver(nodeCurr[..], cpuCurr[0], cpuCurr[1..], keep, cpu2node, cpu);
        continue;
      }
      AddToNode(cpu, cpuPrev, nodePrev, cpu2node[cpu], cpuPrev[0], keep, cpu2node);
      AddToNode(cpu, cpuCurr, nodeCurr, cpu2node[cpu], cpuCurr[0], keep, cpu2node);
    }
    SplitEnd(nodePrev[..], cpuPrev[0], cpuPrev[1..], keep, cpu2node, ZERO, Add);
    SplitEnd(nodeCurr[..], cpuCurr[0], cpuCurr[1..], keep, cpu2node, ZERO, Add);
  }

  // ----- Conservation: the nodes against CPU "all"

  lemma WordLaws()
    ensures Laws(0, AddWords)
  {
    forall a: Word, b: Word, c: Word {:trigger AddWords(AddWords(a, b), c)}
      ensures AddWords(AddWords(a, b), c) == AddWords(a, AddWords(b, c)) && AddWords(a, b) == AddWords(b, a)
      ensures AddWords(a, 0) == a
    {
      PlusLaws(a, b, c);
    }
  }

  lemma AddIsAssociative(a: Cpu, b: Cpu, c: Cpu)
    ensures Add(Add(a, b), c) == Add(a, Add(b, c))
  {
    PlusLaws(a.user, b.user, c.user);
    PlusLaws(a.nice, b.nice, c.nice);
    PlusLaws(a.sys, b.sys, c.sys);
    PlusLaws(a.idle, b.idle, c.idle);
    PlusLaws(a.iowait, b.iowait, c.iowait);
    PlusLaws(a.steal, b.steal, c.steal);
    PlusLaws(a.hardirq, b.hardirq, c.hardirq);
    PlusLaws(a.softirq, b.softirq, c.softirq);
    PlusLaws(a.guest, b.guest, c.guest);
    PlusLaws(a.guestNice, b.guestNice, c.guestNice);
  }

  lemma AddLaws()
    ensures Laws(ZERO, Add)
  {
    forall a, b, c ensures Add(Add(a, b), c) == Add(a, Add(b, c)) { AddIsAssociative(a, b, c); }
    forall a, b {:trigger Add(a, b)} ensures Add(a, b) == Add(b, a) { }
    assert forall a {:trigger Add(a, ZERO)} :: Add(a, ZERO) == a;
  }

  /**
    The CPUs that CPU "all" has and no node has: those without a node, and those whose reference
    vanished when its idle and iowait were corrected.
   */
  predicate IsLost(c: Cpu, p: Cpu, node: int, sinceBoot: bool) {
    !Skipped(p, sinceBoot) && (node == -1 || Skipped(Reference(c, p, sinceBoot), sinceBoot))
  }

  function Lost(c: seq<Cpu>, p: seq<Cpu>, nodes: seq<int>, sinceBoot: bool): seq<bool>
    requires |c| == |p| == |nodes|
  {
    seq(|c|, i requires 0 <= i < |c| => IsLost(c[i], p[i], nodes[i], sinceBoot))
  }

  ghost predicate NodesWithin(nodes: seq<int>) {
    forall i :: 0 <= i < |nodes| ==> -1 <= nodes[i] < |nodes|
  }

  ghost predicate Partition(keep: seq<bool>, counted: seq<bool>, lost: seq<bool>, nodes: seq<int>) {
    && |keep| == |counted| == |lost| == |nodes|
    && (forall i :: 0 <= i < |keep| ==> nodes[i] < |nodes| && (keep[i] ==> counted[i]))
    && (forall i :: 0 <= i < |keep| ==> (lost[i] <==> counted[i] && !(keep[i] && 0 <= nodes[i])))
  }

  /** The sum of the entries of the nodes, without node "all". */
  function NodeSum(entries: seq<Cpu>): Cpu
    requires entries != []
  {
    EntrySum(entries, |entries| - 1, ZERO, Add)
  }

  lemma CpuEntriesAddUp(all: Cpu, s: seq<Cpu>, keep: seq<bool>, nodes: seq<int>, counted: seq<bool>, lost: seq<bool>)
    requires |keep| == |s| && Partition(keep, counted, lost, nodes)
    ensures Add(EntrySum(Entries(all, s, keep, nodes, |s| + 1, ZERO, Add), |s|, ZERO, Add), Fold(s, lost, ZERO, Add))
            == Fold(s, counted, ZERO, Add)
  {
    AddLaws();
    EntriesAddUp(all, s, keep, nodes, counted, lost, ZERO, Add);
  }

  lemma NodeEntriesAddUp(all: Cpu, s: seq<Cpu>, keep: seq<bool>, nodes: seq<int>, counted: seq<bool>, lost: seq<bool>)
    requires |keep| == |s| && Partition(keep, counted, lost, nodes)
    ensures Add(NodeSum(NodeEntries(all, s, keep, nodes)), Sum(s, lost)) == Sum(s, counted)
  {
    CpuEntriesAddUp(all, s, keep, nodes, counted, lost);
  }

  /**
    Conservation, for either sample: `s` is what the CPUs of the sample hold when
    set_node_cpu_stats runs after get_global_cpu_mpstats. The nodes and the lost CPUs add up to
    CPU "all".
   */
  lemma NodesAddUp(s: seq<Cpu>, c: seq<Cpu>, p: seq<Cpu>, nodes: seq<int>, sinceBoot: bool, all: Cpu)
    requires |s| == |c| == |p| == |nodes| && NodesWithin(nodes)
    ensures var keep := Counted(References(c, p, sinceBoot), sinceBoot);
            Add(NodeSum(NodeEntries(all, s, keep, nodes)), Sum(s, Lost(c, p, nodes, sinceBoot)))
              == Sum(s, Counted(p, sinceBoot))
  {
    NodeEntriesAddUp(all, s, Counted(References(c, p, sinceBoot), sinceBoot), nodes, Counted(p, sinceBoot),
                     Lost(c, p, nodes, sinceBoot));
  }

  /**
    So the nodes add up to CPU "all" exactly when what the lost CPUs hold adds up to zero; and
    they do when every CPU has a node and keeps a reference.
   */
  lemma NodesMakeAllIff(s: seq<Cpu>, c: seq<Cpu>, p: seq<Cpu>, nodes: seq<int>, sinceBoot: bool, all: Cpu)
    requires |s| == |c| == |p| == |nodes| && NodesWithin(nodes)
    ensures var keep := Counted(References(c, p, sinceBoot), sinceBoot);
            NodeSum(NodeEntries(all, s, keep, nodes)) == Sum(s, Counted(p, sinceBoot)) <==>
              Sum(s, Lost(c, p, nodes, sinceBoot)) == ZERO
    ensures (forall i :: 0 <= i < |c| ==> !IsLost(c[i], p[i], nodes[i], sinceBoot)) ==>
              Sum(s, Lost(c, p, nodes, sinceBoot)) == ZERO
  {
    NodesAddUp(s, c, p, nodes, sinceBoot, all);
    var lost := Lost(c, p, nodes, sinceBoot);
    Cancel(NodeSum(NodeEntries(all, s, Counted(References(c, p, sinceBoot), sinceBoot), nodes)), Sum(s, lost));
    if forall i :: 0 <= i < |c| ==> !IsLost(c[i], p[i], nodes[i], sinceBoot) {
      NothingKept(s, lost, ZERO, Add);
    }
  }

  lemma Cancel(a: Cpu, b: Cpu)
    ensures Add(a, b) == a <==> b == ZERO
  {
  }

  /** A reference that vanishes: idle restarted, and nothing else was ever counted. */
  lemma VanishedReferenceIsLost()
    ensures IsLost(ZERO.(idle := 3), ZERO.(idle := 5), 0, false)
    ensures Carried(ZERO.(idle := 3), ZERO.(idle := 5)) == ZERO.(idle := 3)
  {
    assert Corrected(ZERO.(idle := 3), ZERO.(idle := 5)) == ZERO;
    TotalIs(ZERO);
    TotalIs(ZERO.(idle := 3));
    TotalIs(ZERO.(idle := 5));
  }

  /** "all" then has the counters of the CPU, and its node does not. */
  lemma LostCpuIsMissing(c: Cpu, p: Cpu, sinceBoot: bool, all: Cpu)
    requires IsLost(c, p, 0, sinceBoot) && Carried(c, p) != ZERO
    ensures var keep := Counted(References([c], [p], sinceBoot), sinceBoot);
            NodeSum(NodeEntries(all, [Carried(c, p)], keep, [0])) != Sum([Carried(c, p)], Counted([p], sinceBoot))
  {
    var s := [Carried(c, p)];
    NodesMakeAllIff(s, [c], [p], [0], sinceBoot, all);
    assert Lost([c], [p], [0], sinceBoot) == [true];
    SumOfOne(s[0]);
  }

  lemma SumOfOne(c: Cpu)
    ensures Sum([c], [true]) == c
  {
    assert [c][..0] == [] && [true][..0] == [] && Sum([], []) == ZERO;
    assert Add(ZERO, c) == c;
  }

  /** A sample's node entries against its CPU buffer `sample`, for the CPUs `c` and `p` that were read. */
  ghost predicate Conserved(entries: seq<Cpu>, sample: seq<Cpu>, c: seq<Cpu>, p: seq<Cpu>, nodes: seq<int>,
                            sinceBoot: bool) {
    && |c| == |p| == |nodes| && |sample| == |entries| == |c| + 1
    && Add(NodeSum(entries), Sum(sample[1..], Lost(c, p, nodes, sinceBoot))) == sample[0]
  }

  /** What set_node_cpu_stats leaves for one sample, given the CPUs that have a reference. */
  ghost predicate SplitOf(entries: seq<Cpu>, sample: seq<Cpu>, reference: seq<Cpu>, nodes: seq<int>, sinceBoot: bool) {
    && |sample| == |reference| == |nodes| + 1
    && entries == NodeEntries(sample[0], sample[1..], Counted(reference[1..], sinceBoot), nodes)
  }

  /**
    The nodes of a report (write_stats_core): CPU "all" and then the nodes, for both samples. With
    several CPUs, where CPU "all" is their sum, the nodes conserve it.
   */
  method ReportNodes(s: Sampler, prev: nat, curr: nat, offline: array<bv8>, nodePrev: array<Cpu>, nodeCurr: array<Cpu>,
                     cpu2node: seq<int>, sinceBoot: bool) returns (deltot: Word)
    requires s.Valid() && prev < 3 && curr < 3 && prev != curr && s.cpuNr / 8 < offline.Length && s.Apart(offline)
    requires nodePrev.Length == nodeCurr.Length == |cpu2node| + 1 == s.cpuNr + 1 && NodesWithin(cpu2node)
    requires nodePrev != nodeCurr && {nodePrev, nodeCurr} !! {s.stCpu[0], s.stCpu[1], s.stCpu[2]}
    modifies s.stCpu[prev], s.stCpu[curr], offline, nodePrev, nodeCurr
    ensures SplitOf(nodeCurr[..], s.stCpu[curr][..], s.stCpu[prev][..], cpu2node, sinceBoot)
    ensures SplitOf(nodePrev[..], s.stCpu[prev][..], s.stCpu[prev][..], cpu2node, sinceBoot)
    ensures s.cpuNr > 1 ==>
              Conserved(nodeCurr[..], s.stCpu[curr][..], old(s.Cpus(curr)), old(s.Cpus(prev)), cpu2node, sinceBoot)
    ensures s.cpuNr > 1 ==>
              Conserved(nodePrev[..], s.stCpu[prev][..], old(s.Cpus(curr)), old(s.Cpus(prev)), cpu2node, sinceBoot)
    ensures s.cpuNr > 1 ==>
              deltot == SumOf(Intervals(old(s.Cpus(curr)), old(s.Cpus(prev))), Counted(old(s.Cpus(prev)), sinceBoot))
  {
    ghost var c, p := s.Cpus(curr), s.Cpus(prev);
    deltot := s.GetGlobalCpuStats(prev, curr, sinceBoot, offline);
    ghost var a, b := s.stCpu[curr][..], s.stCpu[prev][..];
    if s.cpuNr > 1 {
      s.TurnsDone(prev, curr, sinceBoot, c, p, deltot);
      assert s.Cpus(curr) == a[1..] && s.Cpus(prev) == b[1..];
    }
    SetNodeCpuStats(s.stCpu[prev], s.stCpu[curr], nodePrev, nodeCurr, cpu2node, sinceBoot);
    assert s.stCpu[curr][1..] == a[1..] && s.stCpu[prev][1..] == b[1..];
    if s.cpuNr > 1 {
      SplitConserves(nodeCurr[..], a, b, c, p, cpu2node, sinceBoot);
      SplitConserves(nodePrev[..], b, b, c, p, cpu2node, sinceBoot);
    }
  }

  lemma SplitConserves(entries: seq<Cpu>, sample: seq<Cpu>, reference: seq<Cpu>, c: seq<Cpu>, p: seq<Cpu>,
                       nodes: seq<int>, sinceBoot: bool)
    requires SplitOf(entries, sample, reference, nodes, sinceBoot) && NodesWithin(nodes) && |c| == |p| == |nodes|
    requires reference[1..] == References(c, p, sinceBoot) && sample[0] == Sum(sample[1..], Counted(p, sinceBoot))
    ensures Conserved(entries, sample, c, p, nodes, sinceBoot)
  {
    NodesAddUp(sample[1..], c, p, nodes, sinceBoot, sample[0]);
  }

  /** Node "all" is CPU "all" exactly if the CPUs without a node add up to zero: the loop adds them a second time. */
  lemma NodeAllIff(all: Cpu, s: seq<Cpu>, keep: seq<bool>, nodes: seq<int>)
    requires |keep| == |s| == |nodes|
    ensures NodeEntries(all, s, keep, nodes)[0] == all <==> Sum(s, OfGroup(keep, nodes, -1)) == ZERO
  {
    EntryOfAll(all, s, OfGroup(keep, nodes, -1));
    Cancel(all, Sum(s, OfGroup(keep, nodes, -1)));
  }

  /** A single CPU without a node, with one jiffy: node "all" has two. */
  lemma UnplacedCpuCountsTwice()
    ensures var c := ZERO.(user := 1); NodeEntries(c, [c], [true], [-1])[0] != c
  {
    var c := ZERO.(user := 1);
    assert OfGroup([true], [-1], -1) == [true];
    SumOfOne(c);
    NodeAllIff(c, [c], [true], [-1]);
  }

  lemma EntryOfAll(all: Cpu, s: seq<Cpu>, keep: seq<bool>)
    requires |keep| == |s|
    ensures Fold(s, keep, all, Add) == Add(all, Fold(s, keep, ZERO, Add))
  {
    AddLaws();
    FoldFrom(s, keep, all, ZERO, Add);
  }

  // ----- Intervals of nodes

  /** The interval of a node, as the display functions recompute it. */
  function NodeInterval(c: seq<Cpu>, p: seq<Cpu>, nodes: seq<int>, node: int, sinceBoot: bool): Word
    requires |c| == |p| == |nodes|
  {
    SumOf(DirectIntervals(c, p), OfGroup(Counted(p, sinceBoot), nodes, node))
  }

  function NodeIntervals(c: seq<Cpu>, p: seq<Cpu>, nodes: seq<int>, sinceBoot: bool, m: nat): Word
    requires |c| == |p| == |nodes|
  {
    if m == 0 then 0
    else Plus(NodeIntervals(c, p, nodes, sinceBoot, m - 1), NodeInterval(c, p, nodes, m - 1, sinceBoot))
  }

  lemma {:induction false} FoldOfEqual<T>(s: seq<T>, t: seq<T>, keep: seq<bool>, start: T, op: (T, T) -> T)
    requires |s| == |t| == |keep| && forall i :: 0 <= i < |s| && keep[i] ==> s[i] == t[i]
    ensures Fold(s, keep, start, op) == Fold(t, keep, start, op)
  {
    if s != [] { FoldOfEqual(s[..|s| - 1], t[..|s| - 1], keep[..|s| - 1], start, op); }
  }

  /** After get_global_cpu_mpstats every counted CPU still answers with the interval that was added to "all". */
  lemma SameIntervals(c: seq<Cpu>, p: seq<Cpu>, sinceBoot: bool)
    requires |c| == |p|
    ensures var d := DirectIntervals(CarriedAll(c, p), References(c, p, sinceBoot));
            forall i :: 0 <= i < |c| && Counted(p, sinceBoot)[i] ==> d[i] == Intervals(c, p)[i]
  {
    forall i | 0 <= i < |c|
      ensures Interval(Carried(c[i], p[i]), Corrected(Carried(c[i], p[i]), p[i])) == Interval(Carried(c[i], p[i]), p[i])
    {
      IntervalIsStable(Carried(c[i], p[i]), p[i]);
    }
  }

  lemma {:induction false} NodeIntervalsAreGroups(c: seq<Cpu>, p: seq<Cpu>, nodes: seq<int>, sinceBoot: bool, m: nat)
    requires |c| == |p| == |nodes|
    ensures NodeIntervals(c, p, nodes, sinceBoot, m)
            == FoldGroups(DirectIntervals(c, p), Counted(p, sinceBoot), nodes, m, 0, AddWords)
  {
    if m > 0 {
      NodeIntervalsAreGroups(c, p, nodes, sinceBoot, m - 1);
    }
  }

  /** The nodes' intervals, and those of the lost CPUs, add up to the interval of CPU "all". */
  lemma NodeIntervalsAddUp(c: seq<Cpu>, p: seq<Cpu>, nodes: seq<int>, sinceBoot: bool)
    requires |c| == |p| == |nodes| && NodesWithin(nodes)
    ensures Plus(NodeIntervals(CarriedAll(c, p), References(c, p, sinceBoot), nodes, sinceBoot, |c|),
                 SumOf(Intervals(c, p), Lost(c, p, nodes, sinceBoot)))
            == SumOf(Intervals(c, p), Counted(p, sinceBoot))
  {
    var ps := References(c, p, sinceBoot);
    var d, keep, lost, counted := DirectIntervals(CarriedAll(c, p), ps), Counted(ps, sinceBoot),
      Lost(c, p, nodes, sinceBoot), Counted(p, sinceBoot);
    NodeIntervalsAreGroups(CarriedAll(c, p), ps, nodes, sinceBoot, |c|);
    IntervalGroupsAddUp(d, keep, nodes, counted, lost);
    SameIntervals(c, p, sinceBoot);
    FoldOfEqual(d, Intervals(c, p), lost, 0, AddWords);
    FoldOfEqual(d, Intervals(c, p), counted, 0, AddWords);
  }

  lemma IntervalGroupsAddUp(s: seq<Word>, keep: seq<bool>, nodes: seq<int>, counted: seq<bool>, lost: seq<bool>)
    requires |keep| == |s| && Partition(keep, counted, lost, nodes)
    ensures Plus(FoldGroups(s, keep, nodes, |s|, 0, AddWords), Fold(s, lost, 0, AddWords))
            == Fold(s, counted, 0, AddWords)
  {
    WordLaws();
    GroupsAndRest(s, keep, nodes, |s|, counted, lost, 0, AddWords);
  }

  function ReferencesIn(c: seq<Cpu>, p: seq<Cpu>, nodes: seq<int>, node: int, sinceBoot: bool, n: nat): seq<Cpu>
    requires |c| == |p| == |nodes|
  {
    seq(|p|, i requires 0 <= i < |p| =>
      if i < n && nodes[i] == node && !Skipped(p[i], sinceBoot) then Corrected(c[i], p[i]) else p[i])
  }

  /** The state of the loop below before CPU number `n`, of CPUs `c` and `p` at its start. */
  ghost predicate Recalculated(b: seq<Cpu>, deltot: Word, c: seq<Cpu>, p: seq<Cpu>, nodes: seq<int>, node: int,
                               sinceBoot: bool, n: nat)
    requires |c| == |p| == |nodes| && n <= |c|
  {
    && |b| == |p| + 1
    && b[1..] == ReferencesIn(c, p, nodes, node, sinceBoot, n)
    && deltot == SumOf(DirectIntervals(c, p)[..n], OfGroup(Counted(p, sinceBoot), nodes, node)[..n])
  }

  lemma RecalculatedStep(b: seq<Cpu>, deltot: Word, c: seq<Cpu>, p: seq<Cpu>, nodes: seq<int>, node: int,
                         sinceBoot: bool, n: nat)
    requires |c| == |p| == |nodes| && n < |c| && Recalculated(b, deltot, c, p, nodes, node, sinceBoot, n)
    ensures b[n + 1] == p[n]
    ensures if nodes[n] == node && !Skipped(p[n], sinceBoot)
            then Recalculated(b[n + 1 := Corrected(c[n], p[n])], Plus(deltot, Interval(c[n], p[n])), c, p, nodes, node,
                              sinceBoot, n + 1)
            else Recalculated(b, deltot, c, p, nodes, node, sinceBoot, n + 1)
  {
    assert b[n + 1] == b[1..][n];
    SumOfStep(DirectIntervals(c, p), OfGroup(Counted(p, sinceBoot), nodes, node), n);
    assert b[n + 1 := Corrected(c[n], p[n])][1..] == b[1..][n := Corrected(c[n], p[n])];
  }

  lemma RecalculatedEnds(b: seq<Cpu>, deltot: Word, c: seq<Cpu>, p: seq<Cpu>, nodes: seq<int>, node: int,
                         sinceBoot: bool)
    requires |c| == |p| == |nodes| && |b| == |p| + 1
    ensures b[1..] == p ==> Recalculated(b, 0, c, p, nodes, node, sinceBoot, 0)
    ensures Recalculated(b, deltot, c, p, nodes, node, sinceBoot, |c|) ==>
              deltot == NodeInterval(c, p, nodes, node, sinceBoot)
  {
    var d, keep := DirectIntervals(c, p), OfGroup(Counted(p, sinceBoot), nodes, node);
    assert d[..|c|] == d && keep[..|c|] == keep;
    assert ReferencesIn(c, p, nodes, node, sinceBoot, 0) == p;
  }

  /** The loop that recalculates the interval for a node; it corrects the references once more. */
  method RecalculateInterval(cpuPrev: array<Cpu>, cpuCurr: array<Cpu>, cpu2node: seq<int>, node: int, sinceBoot: bool)
    returns (deltot: Word)
    requires cpuPrev.Length == cpuCurr.Length == |cpu2node| + 1 && cpuPrev != cpuCurr
    modifies cpuPrev
    ensures deltot == NodeInterval(cpuCurr[1..], old(cpuPrev[1..]), cpu2node, node, sinceBoot)
    ensures cpuPrev[0] == old(cpuPrev[0])
    ensures cpuPrev[1..] == ReferencesIn(cpuCurr[1..], old(cpuPrev[1..]), cpu2node, node, sinceBoot, |cpu2node|)
  {
    ghost var c, p := cpuCurr[1..], cpuPrev[1..];
    deltot := 0;
    RecalculatedEnds(cpuPrev[..], 0, c, p, cpu2node, node, sinceBoot);
    for cpu := 1 to |cpu2node| + 1
      invariant cpuPrev[0] == old(cpuPrev[0])
      invariant Recalculated(cpuPrev[..], deltot, c, p, cpu2node, node, sinceBoot, cpu - 1)
    {
      RecalculatedStep(cpuPrev[..], deltot, c, p, cpu2node, node, sinceBoot, cpu - 1);
      deltot := IntervalTurn(cpuPrev, cpuCurr, cpu, cpu2node[cpu - 1] == node, sinceBoot, deltot);
    }
    RecalculatedEnds(cpuPrev[..], deltot, c, p, cpu2node, node, sinceBoot);
    assert cpuPrev[..][1..] == cpuPrev[1..];
  }

  method IntervalTurn(cpuPrev: array<Cpu>, cpuCurr: array<Cpu>, cpu: nat, wanted: bool, sinceBoot: bool, deltot: Word)
    returns (deltot': Word)
    requires cpuPrev.Length == cpuCurr.Length && cpu < cpuPrev.Length && cpuPrev != cpuCurr
    modifies cpuPrev
    ensures if wanted && !Skipped(old(cpuPrev[cpu]), sinceBoot)
            then cpuPrev[..] == old(cpuPrev[..])[cpu := Corrected(cpuCurr[cpu], old(cpuPrev[cpu]))]
                 && deltot' == Plus(deltot, Interval(cpuCurr[cpu], old(cpuPrev[cpu])))
            else cpuPrev[..] == old(cpuPrev[..]) && deltot' == deltot
  {
    deltot' := deltot;
    if Total(cpuPrev[cpu]) == 0 && !sinceBoot {
      return;
    }
    if wanted {
      deltot' := Plus(deltot, Interval(cpuCurr[cpu], cpuPrev[cpu]));
      cpuPrev[cpu] := Corrected(cpuCurr[cpu], cpuPrev[cpu]);
    }
  }

  /** In a report these further corrections change nothing. */
  lemma RecalculatingChangesNothing(c: seq<Cpu>, p: seq<Cpu>, nodes: seq<int>, node: int, sinceBoot: bool)
    requires |c| == |p| == |nodes|
    ensures ReferencesIn(CarriedAll(c, p), References(c, p, sinceBoot), nodes, node, sinceBoot, |p|)
            == References(c, p, sinceBoot)
  {
    forall i | 0 <= i < |p|
      ensures !Skipped(Reference(c[i], p[i], sinceBoot), sinceBoot) ==>
                Corrected(Carried(c[i], p[i]), Reference(c[i], p[i], sinceBoot)) == Reference(c[i], p[i], sinceBoot)
    {
      IntervalIsStable(Carried(c[i], p[i]), p[i]);
    }
  }

  // ----- Nodes counter by counter

  /** `keep` selects the CPUs of a node that have a reference, or all of them for statistics since boot. */
  ghost predicate OfNode(keep: seq<bool>, p: seq<Cpu>, nodes: seq<int>, node: int, sinceBoot: bool) {
    |keep| == |p| == |nodes| && forall i :: 0 <= i < |p| ==>
      (keep[i] <==> nodes[i] == node && (sinceBoot || !NoJiffies(p[i])))
  }

  lemma OfNodeIs(keep: seq<bool>, p: seq<Cpu>, nodes: seq<int>, node: int, sinceBoot: bool)
    requires OfNode(keep, p, nodes, node, sinceBoot)
    ensures keep == OfGroup(Counted(p, sinceBoot), nodes, node)
  {
    var group := OfGroup(Counted(p, sinceBoot), nodes, node);
    forall i | 0 <= i < |p| ensures keep[i] == group[i] { NoJiffiesIff(p[i]); }
  }

  /**
    Each counter of entry k is the exact sum of that counter over the CPUs of node k - 1, in 64
    bits; entry 0 has CPU "all" and the CPUs without a node.
   */
  lemma NodeCounter(all: Cpu, s: seq<Cpu>, p: seq<Cpu>, nodes: seq<int>, sinceBoot: bool, k: nat, keep: seq<bool>,
                    f: Field)
    requires |s| == |p| == |nodes| && k <= |s| && OfNode(keep, p, nodes, k - 1, sinceBoot) && Additive(f)
    ensures f(NodeEntries(all, s, Counted(p, sinceBoot), nodes)[k])
            == ((if k == 0 then f(all) else 0) + Exact(Column(s, f), keep)) % TWO_64
  {
    OfNodeIs(keep, p, nodes, k - 1, sinceBoot);
    FieldOfEntry(if k == 0 then all else ZERO, s, keep, f);
  }

  lemma FieldOfEntry(start: Cpu, s: seq<Cpu>, keep: seq<bool>, f: Field)
    requires |keep| == |s| && Additive(f)
    ensures f(Fold(s, keep, start, Add)) == (f(start) + Exact(Column(s, f), keep)) % TWO_64
  {
    SumIsFieldwise(s, keep, f);
    EntryOfAll(start, s, keep);
    FieldOfAdded(start, Sum(s, keep), Exact(Column(s, f), keep), f);
  }

  lemma FieldOfAdded(a: Cpu, b: Cpu, exact: nat, f: Field)
    requires Additive(f) && f(b) == U64(exact)
    ensures f(Add(a, b)) == (f(a) + exact) % TWO_64
  {
    PlusExact(f(a), exact);
  }

  lemma PlusExact(x: Word, exact: nat)
    ensures Plus(x, U64(exact)) == (x + exact) % TWO_64
  {
    SumInWord(exact, x);
  }

  /** The interval of a node is the sum of the intervals of its CPUs that have a reference. */
  lemma NodeIntervalIsExact(c: seq<Cpu>, p: seq<Cpu>, nodes: seq<int>, node: int, sinceBoot: bool, keep: seq<bool>,
                            itvs: seq<Word>)
    requires |c| == |p| == |nodes| == |itvs| && OfNode(keep, p, nodes, node, sinceBoot)
    requires forall i :: 0 <= i < |c| ==> itvs[i] == Interval(c[i], p[i])
    ensures NodeInterval(c, p, nodes, node, sinceBoot) == Exact(itvs, keep) % TWO_64
  {
    OfNodeIs(keep, p, nodes, node, sinceBoot);
    assert itvs == DirectIntervals(c, p);
    SumOfIsExact(itvs, keep);
  }
}
