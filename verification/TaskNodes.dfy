/** The linked task list of pidstat (pid_list) and the functions that rewrite it in place. */
module TaskNodes {
  import opened Wrappers
  import opened TaskModel
  import opened TaskSamples
  import opened TaskOrder
  import TaskOutcomes

  class Node {
    const pid: int
    /** The leader's node, or null for a leader. */
    const tgid: Node?
    var exist: bool
    /** The F_PID_DISPLAYED flag. */
    var shown: bool
    var next: Node?

    /** What stands for this node's address, and for the address in `tgid`. */
    ghost const id: nat
    ghost const owner: Option<nat>

    constructor (pid: int, tgid: Node?, next: Node?, ghost id: nat)
      ensures this.pid == pid && this.tgid == tgid && this.next == next && !exist && !shown
      ensures this.id == id && owner == OwnerOf(tgid)
    {
      this.pid, this.tgid, this.next := pid, tgid, next;
      exist, shown := false, false;
      this.id := id;
      owner := OwnerOf(tgid);
    }

    ghost function Value(): Task
      reads `exist, `shown
    {
      Task(id, pid, owner, exist, shown)
    }
  }

  ghost function OwnerOf(tgid: Node?): Option<nat> {
    if tgid == null then None else Some(tgid.id)
  }

  /**
    Ids stand for addresses: each node has its own, and a tgid pointer is a node of the list
    exactly if it has the node's id.
   */
  ghost predicate Owners(nodes: seq<Node>, nextId: nat) {
    && (forall i, j {:trigger nodes[i].id, nodes[j].id} :: 0 <= i < j < |nodes| ==> nodes[i].id != nodes[j].id)
    && (forall i {:trigger OwnerId(nodes[i], nextId)} :: 0 <= i < |nodes| ==> OwnerId(nodes[i], nextId))
    && (forall i, j {:trigger nodes[i].owner, nodes[j].id} ::
          0 <= i < |nodes| && 0 <= j < |nodes| && nodes[i].owner == Some(nodes[j].id) ==> nodes[i].tgid == nodes[j])
  }

  ghost predicate OwnerId(p: Node, nextId: nat) {
    && p.pid != 0 && p.id < nextId
    && p.owner == OwnerOf(p.tgid)
    && (p.tgid != null ==> p.tgid.id < nextId)
  }

  ghost predicate Distinct(nodes: seq<Node>) {
    forall i, j :: 0 <= i < j < |nodes| ==> nodes[i] != nodes[j]
  }

  /** Each node of a list with one node more is the new one or an old one. */
  lemma InsertedFrom<T>(s: seq<T>, k: nat, x: T)
    requires k <= |s|
    ensures var t := s[..k] + [x] + s[k..];
            forall i :: 0 <= i < |t| && i != k ==> t[i] == s[Before(i, k)]
  {
  }

  lemma InsertedOwnerIds(nodes: seq<Node>, nextId: nat, k: nat, p: Node)
    requires Owners(nodes, nextId) && k <= |nodes| && OwnerId(p, nextId + 1)
    ensures var t := nodes[..k] + [p] + nodes[k..];
            forall i :: 0 <= i < |t| ==> OwnerId(t[i], nextId + 1) && (i != k ==> OwnerId(t[i], nextId))
  {
    InsertedFrom(nodes, k, p);
    var t := nodes[..k] + [p] + nodes[k..];
    forall i | 0 <= i < |t| ensures OwnerId(t[i], nextId + 1) && (i != k ==> OwnerId(t[i], nextId)) {
      if i != k { assert OwnerId(nodes[Before(i, k)], nextId); }
    }
  }

  lemma InsertedOwners(nodes: seq<Node>, nextId: nat, k: nat, p: Node, t: seq<Node>, n: nat)
    requires Owners(nodes, nextId) && k <= |nodes| && t == nodes[..k] + [p] + nodes[k..] && n == nextId + 1
    requires p.id == nextId && OwnerId(p, nextId + 1) && (p.tgid != null ==> p.tgid in nodes)
    ensures Owners(t, n)
  {
    InsertedOwnerIds(nodes, nextId, k, p);
    InsertedFrom(nodes, k, p);
    assert OwnerId(t[k], n);
    forall i, j | 0 <= i < j < |t| ensures t[i].id != t[j].id {
      assert OwnerId(t[i], n) && OwnerId(t[j], n);
      if i != k && j != k { assert nodes[Before(i, k)].id != nodes[Before(j, k)].id; }
    }
    forall i, j | 0 <= i < |t| && 0 <= j < |t| && t[i].owner == Some(t[j].id) ensures t[i].tgid == t[j] {
      assert i != k ==> OwnerId(t[i], nextId);
      if i == k {
        var l :| 0 <= l < |nodes| && nodes[l] == p.tgid;
        assert OwnerId(nodes[l], nextId);
        if j != k { assert nodes[l].id != nodes[Before(j, k)].id || l == Before(j, k); }
      } else if j != k {
        assert nodes[Before(i, k)].owner == Some(nodes[Before(j, k)].id);
      }
    }
  }

  /** The node at position `i`, or null past the end. */
  ghost function NodeAt(nodes: seq<Node>, i: nat): Node? {
    if i < |nodes| then nodes[i] else null
  }

  /** The links visit the nodes in order. */
  ghost predicate Chain(head: Node?, nodes: seq<Node>)
    reads nodes
  {
    && head == NodeAt(nodes, 0)
    && forall i {:trigger nodes[i].next} :: 0 <= i < |nodes| ==> nodes[i].next == NodeAt(nodes, i + 1)
  }

  /** The nodes as values. */
  ghost function Values(nodes: seq<Node>): (s: seq<Task>)
    reads nodes`exist, nodes`shown
    ensures |s| == |nodes|
    ensures forall i :: 0 <= i < |s| ==> s[i] == nodes[i].Value()
  {
    ValuesExist(nodes);
    var s: seq<Task> :| |s| == |nodes| && forall i :: 0 <= i < |s| ==> s[i] == nodes[i].Value();
    s
  }

  lemma ValuesExist(nodes: seq<Node>)
    ensures exists s: seq<Task> :: |s| == |nodes| && forall i :: 0 <= i < |s| ==> s[i] == nodes[i].Value()
  {
    var s: seq<Task> := [];
    while |s| < |nodes|
      invariant |s| <= |nodes|
      invariant forall i :: 0 <= i < |s| ==> s[i] == nodes[i].Value()
    {
      s := s + [nodes[|s|].Value()];
    }
  }

  lemma InsertedValues(nodes: seq<Node>, k: nat, p: Node)
    requires k <= |nodes|
    ensures Values(nodes[..k] + [p] + nodes[k..]) == Values(nodes)[..k] + [p.Value()] + Values(nodes)[k..]
  {
  }

  lemma RemovedSlices<T>(s: seq<T>, k: nat)
    requires k < |s|
    ensures (s[..k] + s[k + 1..])[..k] == s[..k] && (s[..k] + s[k + 1..])[k..] == s[k + 1..]
  {
  }

  lemma RemovedValues(nodes: seq<Node>, k: nat)
    requires k < |nodes|
    ensures Values(nodes[..k] + nodes[k + 1..]) == Values(nodes)[..k] + Values(nodes)[k + 1..]
  {
  }

  lemma RemovedAscend(s: seq<Task>, k: nat)
    requires LeadersAscend(s) && k < |s|
    ensures LeadersAscend(s[..k] + s[k + 1..])
  {
  }

  lemma OwnersDistinct(nodes: seq<Node>, nextId: nat)
    requires Owners(nodes, nextId)
    ensures Distinct(nodes)
  {
    forall i, j | 0 <= i < j < |nodes| ensures nodes[i] != nodes[j] {
      assert nodes[i].id != nodes[j].id;
    }
  }

  lemma RemovedOwners(nodes: seq<Node>, nextId: nat, k: nat)
    requires Owners(nodes, nextId) && k < |nodes|
    ensures Owners(nodes[..k] + nodes[k + 1..], nextId)
  {
  }

  ghost function SweepOrDrop(s: seq<Task>, force: bool): seq<Task> {
    if force then [] else Sweep(s)
  }

  lemma {:induction false} SweepFirst(x: Task, s: seq<Task>)
    ensures Sweep([x] + s) == (if x.exist then [x] else []) + Sweep(s)
  {
    var t := [x] + s;
    if s == [] {
      assert t[..0] == [];
    } else {
      var n := |s| - 1;
      SweepFirst(x, s[..n]);
      assert t[..n + 1] == [x] + s[..n];
    }
  }

  /** The loop of sfree_pid, on values: `t` is the list, its first `k` tasks were kept, `goal` is its outcome. */
  ghost predicate HalfSwept(t: seq<Task>, k: nat, goal: seq<Task>, force: bool) {
    k <= |t| && goal == t[..k] + SweepOrDrop(t[k..], force)
  }

  lemma SweepKeeps(t: seq<Task>, k: nat, goal: seq<Task>)
    requires HalfSwept(t, k, goal, false) && k < |t| && t[k].exist
    ensures HalfSwept(t, k + 1, goal, false)
  {
    var x, rest := t[k], t[k + 1..];
    assert t[k..] == [x] + rest;
    SweepFirst(x, rest);
    assert t[..k + 1] == t[..k] + [x];
    assert t[..k] + ([x] + Sweep(rest)) == (t[..k] + [x]) + Sweep(rest);
  }

  lemma SweepDrops(t: seq<Task>, k: nat, goal: seq<Task>, force: bool)
    requires HalfSwept(t, k, goal, force) && k < |t| && (!t[k].exist || force)
    ensures HalfSwept(t[..k] + t[k + 1..], k, goal, force)
  {
    var x, rest := t[k], t[k + 1..];
    assert SweepOrDrop(t[k..], force) == SweepOrDrop(rest, force) by {
      assert t[k..] == [x] + rest;
      SweepFirst(x, rest);
    }
    RemovedSlices(t, k);
  }

  lemma SweepEnds(t: seq<Task>, goal: seq<Task>, force: bool)
    ensures HalfSwept(t, 0, goal, force) <==> goal == SweepOrDrop(t, force)
    ensures HalfSwept(t, |t|, goal, force) <==> goal == t
  {
    assert t[..0] == [] && t[0..] == t && t[..|t|] == t && t[|t|..] == [];
  }

  class TaskList {
    var head: Node?
    ghost var nodes: seq<Node>
    ghost var nextId: nat

    ghost function Tasks(): seq<Task>
      reads `nodes, nodes`exist, nodes`shown
    {
      Values(nodes)
    }

    ghost function Contents(): State
      reads this, nodes
    {
      State(Tasks(), nextId)
    }

    /** The nodes of the list are those of `was`, in the same order, and new ones. */
    twostate predicate Kept(was: seq<Node>)
      reads this
    {
      && (forall p :: p in was ==> p in nodes)
      && (forall i :: 0 <= i < |nodes| ==> nodes[i] in was || fresh(nodes[i]))
    }

    ghost predicate Valid()
      reads this, nodes
    {
      Chain(head, nodes) && Owners(nodes, nextId) && LeadersAscend(Tasks())
    }

    constructor ()
      ensures Valid() && Contents() == State([], 1) && nodes == []
    {
      head := null;
      nodes, nextId := [], 1;
    }

    /** Writes `p` through the link that follows `prev`, or through the head of the list. */
    method Link(prev: Node?, p: Node, ghost k: nat)
      requires Chain(head, nodes) && Distinct(nodes) && p !in nodes
      requires k <= |nodes| && prev == (if k == 0 then null else nodes[k - 1]) && p.next == NodeAt(nodes, k)
      modifies this`head, this`nodes, nodes`next
      ensures nodes == old(nodes)[..k] + [p] + old(nodes)[k..]
      ensures Chain(head, nodes)
    {
      ghost var was := nodes;
      if prev == null { head := p; } else { prev.next := p; }
      nodes := was[..k] + [p] + was[k..];
      forall i | 0 <= i < |nodes| ensures nodes[i].next == NodeAt(nodes, i + 1) {
        if i < k {
          assert nodes[i] == was[i];
        } else if i > k {
          assert nodes[i] == was[i - 1] && was[i - 1] != prev;
        }
      }
    }

    method Insert(prev: Node?, pid: int, tgid: Node?, ghost k: nat) returns (p: Node)
      requires Chain(head, nodes) && Distinct(nodes)
      requires k <= |nodes| && prev == (if k == 0 then null else nodes[k - 1])
      modifies this, nodes`next
      ensures Chain(head, nodes) && nodes == old(nodes)[..k] + [p] + old(nodes)[k..]
      ensures fresh(p) && p.id == old(nextId) && p.pid == pid && p.tgid == tgid && p.owner == OwnerOf(tgid)
      ensures Contents() == Inserted(old(Contents()), k, pid, OwnerOf(tgid))
    {
      p := new Node(pid, tgid, if prev == null then head else prev.next, nextId);
      ghost var was := nodes;
      Link(prev, p, k);
      nextId := nextId + 1;
      assert Values(was) == old(Tasks());
      assert p.Value() == Task(old(nextId), pid, OwnerOf(tgid), false, false);
      InsertedValues(was, k, p);
    }

    method InsertTask(prev: Node?, pid: int, tgid: Node?, ghost k: nat) returns (p: Node)
      requires Valid() && pid != 0 && k <= |nodes| && prev == (if k == 0 then null else nodes[k - 1])
      requires tgid != null ==> tgid in nodes
      requires LeadersAscend(Inserted(Contents(), k, pid, OwnerOf(tgid)).tasks)
      modifies this, nodes`next
      ensures Valid() && Kept(old(nodes)) && p in nodes && p.id == old(nextId)
      ensures Contents() == Inserted(old(Contents()), k, pid, OwnerOf(tgid))
    {
      ghost var was, n := nodes, nextId;
      OwnersDistinct(nodes, nextId);
      assert tgid != null ==> OwnerId(tgid, nextId);
      p := Insert(prev, pid, tgid, k);
      InsertedOwners(was, n, k, p, nodes, nextId);
      InsertedFrom(was, k, p);
    }

    /** add_list_pid for a leader. */
    method AddLeader(pid: int) returns (r: Node)
      requires Valid() && pid != 0
      modifies this, nodes`next
      ensures Valid() && Kept(old(nodes)) && r in nodes
      ensures Contents() == Add(old(Contents()), pid, 0).0 && Some(r.id) == Add(old(Contents()), pid, 0).1
    {
      AddKeepsLeadersAscend(Contents(), pid, 0);
      var prev: Node?, p := null, head;
      ghost var k := 0;
      while p != null
        invariant k <= |nodes| && p == NodeAt(nodes, k) && prev == (if k == 0 then null else nodes[k - 1])
        invariant LeaderSlot(Tasks(), pid, k) == LeaderSlot(Tasks(), pid, 0)
        decreases |nodes| - k
      {
        assert Tasks()[k] == p.Value() && OwnerId(p, nextId);
        if p.tgid == null && p.pid == pid {
          return p;
        }
        if p.tgid == null && p.pid > pid {
          break;
        }
        prev, p, k := p, p.next, k + 1;
      }
      assert k == LeaderSlot(Tasks(), pid, 0);
      r := InsertTask(prev, pid, null, k);
    }

    /** The first node numbered `n`, whether leader or thread. */
    method FindNumber(n: int) returns (p: Node?, ghost k: nat)
      requires Valid()
      ensures k == FirstWithNumber(Tasks(), n, 0) && p == NodeAt(nodes, k)
    {
      p, k := head, 0;
      while p != null && p.pid != n
        invariant k <= |nodes| && p == NodeAt(nodes, k)
        invariant FirstWithNumber(Tasks(), n, k) == FirstWithNumber(Tasks(), n, 0)
        decreases |nodes| - k
      {
        p, k := p.next, k + 1;
      }
    }

    /** Scans the threads of `leader`: the node of thread `pid`, or else the node to insert behind. */
    method FindThread(leader: Node, pid: int, ghost l: nat) returns (found: Node?, prev: Node, ghost k: nat)
      requires Valid() && l < |nodes| && leader == nodes[l]
      ensures k == ThreadSlot(Tasks(), leader.id, pid, l + 1) && prev == nodes[k - 1]
      ensures found == if Occupied(Tasks(), Here(k, Some(leader.id)), pid) then NodeAt(nodes, k) else null
    {
      prev, found := leader, leader.next;
      k := l + 1;
      while found != null
        invariant l < k <= |nodes| && found == NodeAt(nodes, k) && prev == nodes[k - 1]
        invariant ThreadSlot(Tasks(), leader.id, pid, k) == ThreadSlot(Tasks(), leader.id, pid, l + 1)
        decreases |nodes| - k
      {
        assert Tasks()[k] == found.Value() && OwnerId(found, nextId);
        assert found.tgid == leader <==> found.owner == Some(leader.id);
        if found.tgid == leader && found.pid == pid {
          return;
        }
        if found.tgid == leader && found.pid > pid {
          found := null;
          return;
        }
        if found.tgid != leader {
          found := null;
          return;
        }
        prev, found, k := found, found.next, k + 1;
      }
    }

    /** The end of add_list_pid, once the scan has stopped at position `k`. */
    method FoundOrAdded(found: Node?, prev: Node?, pid: int, leader: Node?, ghost tgid: int, ghost k: nat)
      returns (r: Node)
      requires Valid() && pid != 0 && PlaceFor(Tasks(), pid, tgid) == Here(k, OwnerOf(leader))
      requires prev == (if k == 0 then null else nodes[k - 1]) && (leader != null ==> leader in nodes)
      requires found == if Occupied(Tasks(), Here(k, OwnerOf(leader)), pid) then NodeAt(nodes, k) else null
      modifies this, nodes`next
      ensures Valid() && Kept(old(nodes)) && r in nodes
      ensures Contents() == Add(old(Contents()), pid, tgid).0 && Some(r.id) == Add(old(Contents()), pid, tgid).1
    {
      AddKeepsLeadersAscend(Contents(), pid, tgid);
      if found != null {
        r := found;
      } else {
        r := InsertTask(prev, pid, leader, k);
      }
    }

    /** add_list_pid for a thread. */
    method AddThread(pid: int, tgid: int) returns (r: Node?)
      requires Valid() && pid != 0 && tgid != 0
      modifies this, nodes`next
      ensures Valid() && Kept(old(nodes)) && (r != null ==> r in nodes)
      ensures Contents() == Add(old(Contents()), pid, tgid).0 && OwnerOf(r) == Add(old(Contents()), pid, tgid).1
    {
      var leader, l := FindNumber(tgid);
      if leader == null {
        return null;
      }
      var found, prev, k := FindThread(leader, pid, l);
      r := FoundOrAdded(found, prev, pid, leader, tgid, k);
    }

    /** add_list_pid. */
    method AddListPid(pid: int, tgid: int) returns (r: Node?)
      requires Valid()
      modifies this, nodes`next
      ensures Valid() && Kept(old(nodes)) && (r != null ==> r in nodes)
      ensures Contents() == Add(old(Contents()), pid, tgid).0 && OwnerOf(r) == Add(old(Contents()), pid, tgid).1
    {
      if pid == 0 {
        r := null;
      } else if tgid == 0 {
        r := AddLeader(pid);
      } else {
        r := AddThread(pid, tgid);
      }
    }

    /** set_pid_nonexistent. */
    method SetPidNonexistent()
      requires Valid()
      modifies nodes`exist
      ensures Valid() && Contents() == Marked(old(Contents()))
    {
      var p := head;
      ghost var k := 0;
      while p != null
        invariant k <= |nodes| && p == NodeAt(nodes, k)
        invariant forall i :: 0 <= i < |nodes| ==> nodes[i].exist == if i < k then false else old(nodes[i].exist)
        decreases |nodes| - k
      {
        p.exist := false;
        p, k := p.next, k + 1;
      }
      FlagsKeepLeadersAscend(old(Tasks()), Tasks());
      assert Tasks() == MarkAll(old(Tasks()));
    }

    /** Removes the node behind `prev`, or the first one. */
    method Unlink(prev: Node?, p: Node, ghost k: nat)
      requires Chain(head, nodes) && Distinct(nodes)
      requires k < |nodes| && p == nodes[k] && prev == (if k == 0 then null else nodes[k - 1])
      modifies this`head, this`nodes, nodes`next
      ensures Chain(head, nodes) && nodes == old(nodes)[..k] + old(nodes)[k + 1..]
    {
      ghost var was := nodes;
      if prev == null { head := p.next; } else { prev.next := p.next; }
      nodes := was[..k] + was[k + 1..];
      forall i | 0 <= i < |nodes| ensures nodes[i].next == NodeAt(nodes, i + 1) {
        if i < k {
          assert nodes[i] == was[i];
        } else {
          assert nodes[i] == was[i + 1] && was[i + 1] != prev;
        }
      }
    }

    method UnlinkTask(prev: Node?, p: Node, ghost k: nat)
      requires Valid() && k < |nodes| && p == nodes[k] && prev == (if k == 0 then null else nodes[k - 1])
      modifies this`head, this`nodes, nodes`next
      ensures Valid() && (forall i :: 0 <= i < |nodes| ==> nodes[i] in old(nodes))
      ensures |nodes| == |old(nodes)| - 1 && NodeAt(nodes, k) == NodeAt(old(nodes), k + 1)
      ensures k > 0 ==> nodes[k - 1] == prev
      ensures Tasks() == old(Tasks())[..k] + old(Tasks())[k + 1..]
    {
      ghost var was := nodes;
      OwnersDistinct(nodes, nextId);
      Unlink(prev, p, k);
      assert Values(was) == old(Tasks());
      RemovedValues(was, k);
      RemovedAscend(Values(was), k);
      RemovedOwners(was, nextId, k);
    }

    /** One turn of the loop of sfree_pid: frees node `p`, or steps over it. */
    method SweepNode(prev: Node?, p: Node, force: bool, ghost k: nat, ghost goal: seq<Task>)
      returns (prev': Node?, p': Node?, ghost k': nat)
      requires Valid() && k < |nodes| && p == nodes[k] && prev == (if k == 0 then null else nodes[k - 1])
      requires HalfSwept(Tasks(), k, goal, force)
      modifies this`head, this`nodes, nodes`next
      ensures Valid() && (forall i :: 0 <= i < |nodes| ==> nodes[i] in old(nodes))
      ensures k' <= |nodes| && p' == NodeAt(nodes, k') && prev' == (if k' == 0 then null else nodes[k' - 1])
      ensures HalfSwept(Tasks(), k', goal, force) && |nodes| - k' == |old(nodes)| - k - 1
    {
      prev', p', k' := prev, p.next, k;
      assert Tasks()[k].exist == p.exist;
      if !p.exist || force {
        SweepDrops(Tasks(), k, goal, force);
        UnlinkTask(prev, p, k);
      } else {
        SweepKeeps(Tasks(), k, goal);
        prev', k' := p, k + 1;
      }
    }

    /** sfree_pid. */
    method SfreePid(force: bool)
      requires Valid()
      modifies this`head, this`nodes, nodes`next
      ensures Valid() && forall i :: 0 <= i < |nodes| ==> nodes[i] in old(nodes)
      ensures Tasks() == if force then [] else Sweep(old(Tasks()))
    {
      var prev: Node?, p := null, head;
      ghost var k: nat, goal := 0, SweepOrDrop(Tasks(), force);
      SweepEnds(Tasks(), goal, force);
      while p != null
        invariant Valid() && forall i :: 0 <= i < |nodes| ==> nodes[i] in old(nodes)
        invariant k <= |nodes| && p == NodeAt(nodes, k) && prev == (if k == 0 then null else nodes[k - 1])
        invariant HalfSwept(Tasks(), k, goal, force)
        decreases |nodes| - k
      {
        prev, p, k := SweepNode(prev, p, force, k, goal);
      }
      SweepEnds(Tasks(), goal, force);
    }

    method MarkExist(p: Node, ok: bool)
      requires Valid() && p in nodes
      modifies p`exist
      ensures Valid() && Contents() == State(SetExist(old(Tasks()), p.id, ok), nextId)
    {
      p.exist := ok;
      FlagsKeepLeadersAscend(old(Tasks()), Tasks());
      assert Tasks() == SetExist(old(Tasks()), p.id, ok);
    }

    /** Looks a PID or a TID up, adding it if need be, and records whether it could be read. */
    method AddAndMark(pid: int, tgid: int, ok: bool) returns (r: Node?)
      requires Valid()
      modifies this, nodes
      ensures Valid() && Kept(old(nodes)) && (r != null ==> r in nodes)
      ensures OwnerOf(r) == Add(old(Contents()), pid, tgid).1
      ensures Contents() == Found(Add(old(Contents()), pid, tgid), ok)
    {
      r := AddListPid(pid, tgid);
      if r != null {
        MarkExist(r, ok);
      }
    }

    /** read_task_stats. */
    method ReadTaskStats(tgid: int, rs: seq<ThreadRead>)
      requires Valid()
      modifies this, nodes
      ensures Valid() && Kept(old(nodes))
      ensures Contents() == VisitThreads(old(Contents()), tgid, rs)
    {
      for i := 0 to |rs|
        invariant Valid() && Kept(old(nodes))
        invariant Contents() == VisitThreads(old(Contents()), tgid, rs[..i])
      {
        assert rs[..i + 1][..i] == rs[..i];
        var _ := AddAndMark(rs[i].tid, tgid, rs[i].ok);
      }
      assert rs[..|rs|] == rs;
    }

    /** The body of the loops of read_stats. */
    method ReadPid(v: Visit, tids: bool)
      requires Valid()
      modifies this, nodes
      ensures Valid() && Kept(old(nodes))
      ensures Contents() == VisitPid(old(Contents()), v, tids)
    {
      var p := AddAndMark(v.pid, 0, v.ok);
      if p != null && v.ok && tids {
        ReadTaskStats(v.pid, v.threads);
      }
    }

    /** One sample for all PIDs of /proc: set_pid_nonexistent, then read_stats. */
    method SampleAll(vs: seq<Visit>, tids: bool)
      requires Valid()
      modifies this, nodes
      ensures Valid() && Contents() == Sample(old(Contents()), vs, tids)
      ensures (ValidState(old(Contents())) && SampleClear(old(Contents()), vs, tids))
                ==> TaskOutcomes.AsRead(Tasks(), vs, tids)
    {
      ghost var before := Contents();
      SetPidNonexistent();
      for i := 0 to |vs|
        invariant Valid() && Kept(old(nodes))
        invariant Contents() == Scan(Marked(old(Contents())), vs[..i], tids)
      {
        assert vs[..i + 1][..i] == vs[..i];
        ReadPid(vs[i], tids);
      }
      assert vs[..|vs|] == vs;
      SfreePid(false);
      if ValidState(before) && SampleClear(before, vs, tids) { TaskOutcomes.SampleIsAsRead(before, vs, tids); }
    }

    /**
      One sample for the PIDs given on the command line: the scan walks the list itself, which
      grows under its cursor as threads are inserted.
     */
    method SampleListed(probe: int -> Outcome, tids: bool)
      requires Valid()
      modifies this, nodes
      ensures Valid()
      ensures Contents() == Sample(old(Contents()), Visits(LeaderPids(old(Tasks())), probe), tids)
      ensures (ValidState(old(Contents()))
               && SampleClear(old(Contents()), Visits(LeaderPids(old(Tasks())), probe), tids))
                ==> TaskOutcomes.AsProbed(old(Tasks()), Tasks(), probe, tids)
    {
      ghost var before := Contents();
      ghost var pids, start := LeaderPids(Tasks()), Marked(Contents());
      ScanStarts(Tasks(), start, probe, tids);
      SetPidNonexistent();
      ScanListed(probe, tids, start, pids);
      SfreePid(false);
      if ValidState(before) && SampleClear(before, Visits(pids, probe), tids) {
        TaskOutcomes.ListedSampleIsAsProbed(before, probe, tids);
      }
    }

    method ScanListed(probe: int -> Outcome, tids: bool, ghost start: State, ghost pids: seq<int>)
      requires Valid() && HalfScanned(start, Contents(), 0, pids, 0, probe, tids)
      modifies this, nodes
      ensures Valid() && Kept(old(nodes))
      ensures Contents() == Scan(start, Visits(pids, probe), tids)
    {
      var p := head;
      ghost var i: nat, m: nat := 0, 0;
      while p != null
        invariant Valid() && Kept(old(nodes)) && i <= |nodes| && p == NodeAt(nodes, i)
        invariant HalfScanned(start, Contents(), i, pids, m, probe, tids)
        decreases |pids| - m, |nodes| - i
      {
        p, i, m := ListedStep(p, probe, tids, start, i, pids, m);
      }
      ScanDone(start, Contents(), pids, m, probe, tids);
    }

    /** One turn of the scan. A leader may move under the cursor when its threads are inserted. */
    method ListedStep(p: Node, probe: int -> Outcome, tids: bool, ghost start: State, ghost i: nat,
                      ghost pids: seq<int>, ghost m: nat)
      returns (p': Node?, ghost i': nat, ghost m': nat)
      requires Valid() && i < |nodes| && p == nodes[i] && HalfScanned(start, Contents(), i, pids, m, probe, tids)
      modifies this, nodes
      ensures Valid() && Kept(old(nodes)) && i' <= |nodes| && p' == NodeAt(nodes, i')
      ensures HalfScanned(start, Contents(), i', pids, m', probe, tids)
      ensures (m' == m && |nodes| - i' < old(|nodes|) - i) || m < m' <= |pids|
    {
      assert Tasks()[i] == p.Value() && OwnerId(p, nextId);
      ghost var now := Contents();
      i', m' := i, m;
      if p.tgid == null {
        ghost var k := ReadListed(p, i, probe(p.pid), tids);
        assert Tasks()[k] == p.Value();
        assert Contents() == VisitPid(now, VisitOf(p.pid, probe), tids);
        StepOverLeader(start, now, i, Contents(), k, pids, m, probe, tids);
        i', m' := k + 1, m + 1;
      } else {
        StepOverThread(start, now, i, pids, m, probe, tids);
        i' := i + 1;
      }
      p' := p.next;
    }

    /** Reads leader `p`, and its threads, without leaving it: it may move in the list, the leaders behind it stay. */
    method ReadListed(p: Node, ghost i: nat, o: Outcome, tids: bool) returns (ghost i': nat)
      requires Valid() && i < |nodes| && p == nodes[i] && p.tgid == null
      modifies this, nodes
      ensures Valid() && Kept(old(nodes)) && i' < |nodes| && p == nodes[i']
      ensures LeaderPids(Tasks()[i'..]) == LeaderPids(old(Tasks())[i..])
      ensures Contents() == VisitPid(old(Contents()), Visit(p.pid, o.ok, o.threads), tids)
    {
      assert Tasks()[i] == p.Value() && OwnerId(p, nextId);
      LeaderIsFound(Contents(), i);
      MarkExist(p, o.ok);
      SameLeaders(old(Tasks()), Tasks(), i);
      i' := i;
      if o.ok && tids {
        i' := ReadThreadsUnder(p, o.threads, i);
      }
    }

    method ReadThreadsUnder(p: Node, rs: seq<ThreadRead>, ghost i: nat) returns (ghost i': nat)
      requires Valid() && i < |nodes| && p == nodes[i]
      modifies this, nodes
      ensures Valid() && Kept(old(nodes)) && i' < |nodes| && p == nodes[i']
      ensures LeaderPids(Tasks()[i'..]) == LeaderPids(old(Tasks())[i..])
      ensures Contents() == VisitThreads(old(Contents()), p.pid, rs)
    {
      assert OwnerId(p, nextId);
      i' := VisitThreadsKeepsLeaders(Contents(), p.pid, rs, i);
      ghost var end := VisitThreads(Contents(), p.pid, rs);
      ReadTaskStats(p.pid, rs);
      assert Contents() == end && end.tasks[i'] == nodes[i'].Value();
      assert p in nodes && nodes[i'].id == p.id;
    }
  }
}
