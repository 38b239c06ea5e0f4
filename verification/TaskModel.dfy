/**
  The task list of pidstat, as a sequence of values, and what its operations do to it.

  The list is one sequence: thread group leaders ascending by PID, each followed at once by
  its own threads, ascending by TID. Class TaskNodes.TaskList holds the linked nodes; its
  methods are proved against the functions of this module.
 */
module TaskModel {
  import opened Wrappers

  /**
    A node of the list. `id` stands for the node's address and `owner` for the address held
    in its tgid pointer, absent for a thread group leader. `exist` and `shown` are the two
    flags the program sets in place.
   */
  datatype Task = Task(id: nat, pid: int, owner: Option<nat>, exist: bool, shown: bool) {
    predicate Leader() {
      owner.None?
    }
  }

  /** The list and the next unused node address. */
  datatype State = State(tasks: seq<Task>, nextId: nat)

  // ----- Well-formed lists

  ghost predicate DistinctIds(s: seq<Task>) {
    forall i, j :: 0 <= i < j < |s| ==> s[i].id != s[j].id
  }

  ghost predicate LeadersAscend(s: seq<Task>) {
    forall i, j :: 0 <= i < j < |s| && s[i].Leader() && s[j].Leader() ==> s[i].pid < s[j].pid
  }

  /** Thread `b` may stand right behind `a`: behind its leader, or behind a smaller TID of its group. */
  predicate Follows(a: Task, b: Task) {
    b.owner.Some? && if a.Leader() then a.id == b.owner.value else a.owner == b.owner && a.pid < b.pid
  }

  predicate Linked(s: seq<Task>, i: nat)
    requires i < |s|
  {
    s[i].Leader() || (i > 0 && Follows(s[i - 1], s[i]))
  }

  /** Leaders ascending, each followed at once by its own threads, ascending. */
  ghost predicate WellFormed(s: seq<Task>) {
    && DistinctIds(s)
    && LeadersAscend(s)
    && forall i :: 0 <= i < |s| ==> Linked(s, i)
  }

  ghost predicate IdsBelow(s: seq<Task>, n: nat) {
    forall i :: 0 <= i < |s| ==> s[i].id < n
  }

  ghost predicate ValidState(st: State) {
    WellFormed(st.tasks) && IdsBelow(st.tasks, st.nextId)
  }

  /** The index of the leader of the group that node `i` stands in. */
  function Head(s: seq<Task>, i: nat): (h: nat)
    requires i < |s|
    ensures h <= i
  {
    if s[i].Leader() || i == 0 then i else Head(s, i - 1)
  }

  /** In a well-formed list a thread's tgid pointer is its group's leader, and TIDs ascend up to it. */
  lemma {:induction false} HeadOwnsGroup(s: seq<Task>, i: nat)
    requires WellFormed(s) && i < |s|
    ensures var h := Head(s, i);
            && s[h].Leader()
            && (forall k :: h < k <= i ==> s[k].owner == Some(s[h].id))
            && (forall k, l :: h < k < l <= i ==> s[k].pid < s[l].pid)
    decreases i
  {
    assert Linked(s, i);
    if !s[i].Leader() {
      HeadOwnsGroup(s, i - 1);
      assert Linked(s, i - 1);
    }
  }

  /** A tgid pointer of a well-formed list never dangles: it is a leader that stands earlier in the list. */
  lemma OwnerIsEarlierLeader(s: seq<Task>, i: nat)
    requires WellFormed(s) && i < |s| && !s[i].Leader()
    ensures exists h :: 0 <= h < i && s[h].Leader() && s[i].owner == Some(s[h].id)
  {
    HeadOwnsGroup(s, i);
  }

  /** What identifies a node: its leader, if any, and its number. */
  ghost predicate SameKey(a: Task, b: Task) {
    a.owner == b.owner && a.pid == b.pid
  }

  /** No two nodes of a well-formed list have the same leader and number. */
  lemma KeysAreUnique(s: seq<Task>, i: nat, j: nat)
    requires WellFormed(s) && i < j < |s|
    ensures !SameKey(s[i], s[j])
  {
    if s[i].owner == s[j].owner && s[i].owner.Some? {
      HeadOwnsGroup(s, i);
      HeadOwnsGroup(s, j);
      assert Head(s, i) == Head(s, j);
    }
  }

  // ----- add_list_pid

  /** Where the scan for a leader stops: at the first leader whose PID is not below `pid`. */
  function LeaderSlot(s: seq<Task>, pid: int, i: nat): (k: nat)
    requires i <= |s|
    ensures i <= k <= |s|
    decreases |s| - i
  {
    if i == |s| || (s[i].Leader() && pid <= s[i].pid) then i else LeaderSlot(s, pid, i + 1)
  }

  lemma {:induction false} LeaderSlotStops(s: seq<Task>, pid: int, i: nat)
    requires i <= |s|
    ensures var k := LeaderSlot(s, pid, i);
            && (forall j :: i <= j < k ==> s[j].Leader() ==> s[j].pid < pid)
            && (k < |s| ==> s[k].Leader() && pid <= s[k].pid)
    decreases |s| - i
  {
    if !(i == |s| || (s[i].Leader() && pid <= s[i].pid)) { LeaderSlotStops(s, pid, i + 1); }
  }

  /** The first node with number `n`. The program does not ask whether it is a leader. */
  function FirstWithNumber(s: seq<Task>, n: int, i: nat): (k: nat)
    requires i <= |s|
    ensures i <= k <= |s|
    decreases |s| - i
  {
    if i == |s| || s[i].pid == n then i else FirstWithNumber(s, n, i + 1)
  }

  lemma {:induction false} FirstWithNumberStops(s: seq<Task>, n: int, i: nat)
    requires i <= |s|
    ensures var k := FirstWithNumber(s, n, i);
            && (forall j :: i <= j < k ==> s[j].pid != n)
            && (k < |s| ==> s[k].pid == n)
    decreases |s| - i
  {
    if !(i == |s| || s[i].pid == n) { FirstWithNumberStops(s, n, i + 1); }
  }

  /** Where the scan for a thread stops: past the smaller threads that point to `owner`. */
  function ThreadSlot(s: seq<Task>, owner: nat, pid: int, i: nat): (k: nat)
    requires i <= |s|
    ensures i <= k <= |s|
    decreases |s| - i
  {
    if i == |s| || s[i].owner != Some(owner) || pid <= s[i].pid then i else ThreadSlot(s, owner, pid, i + 1)
  }

  lemma {:induction false} ThreadSlotStops(s: seq<Task>, owner: nat, pid: int, i: nat)
    requires i <= |s|
    ensures var k := ThreadSlot(s, owner, pid, i);
            && (forall j :: i <= j < k ==> s[j].owner == Some(owner) && s[j].pid < pid)
            && (k < |s| ==> s[k].owner != Some(owner) || pid <= s[k].pid)
    decreases |s| - i
  {
    if !(i == |s| || s[i].owner != Some(owner) || pid <= s[i].pid) { ThreadSlotStops(s, owner, pid, i + 1); }
  }

  function Inserted(st: State, k: nat, pid: int, owner: Option<nat>): State
    requires k <= |st.tasks|
  {
    State(st.tasks[..k] + [Task(st.nextId, pid, owner, false, false)] + st.tasks[k..], st.nextId + 1)
  }

  /** Where the scan of add_list_pid ends, and the tgid pointer that a node there has. */
  datatype Place = Nowhere | Here(k: nat, owner: Option<nat>)

  function PlaceFor(s: seq<Task>, pid: int, tgid: int): (p: Place)
    ensures p.Here? ==> p.k <= |s|
  {
    if pid == 0 then
      Nowhere
    else if tgid == 0 then
      Here(LeaderSlot(s, pid, 0), None)
    else
      var l := FirstWithNumber(s, tgid, 0);
      if l == |s| then Nowhere else Here(ThreadSlot(s, s[l].id, pid, l + 1), Some(s[l].id))
  }

  predicate Occupied(s: seq<Task>, p: Place, pid: int)
    requires p.Here? && p.k <= |s|
  {
    p.k < |s| && s[p.k].owner == p.owner && s[p.k].pid == pid
  }

  /** add_list_pid: the new list, and the address of the node found or added, if any. */
  function Add(st: State, pid: int, tgid: int): (r: (State, Option<nat>)) {
    var p := PlaceFor(st.tasks, pid, tgid);
    if p.Nowhere? then (st, None)
    else if Occupied(st.tasks, p, pid) then (st, Some(st.tasks[p.k].id))
    else (Inserted(st, p.k, pid, p.owner), Some(st.nextId))
  }

  /**
    A caller of add_list_pid can check this before the call: the first node that bears the
    thread's TGID is a leader. It fails when that number is a TID of an earlier group.
   */
  predicate NoAlias(s: seq<Task>, pid: int, tgid: int) {
    pid == 0 || tgid == 0 || var l := FirstWithNumber(s, tgid, 0); l == |s| || s[l].Leader()
  }

  /** `x` may be put at index `k`: its neighbours accept it, and it keeps the leaders ascending. */
  ghost predicate Fits(s: seq<Task>, k: nat, x: Task)
    requires k <= |s|
  {
    && (forall i :: 0 <= i < |s| ==> s[i].id != x.id)
    && (x.Leader() ==> forall i :: 0 <= i < |s| && s[i].Leader() ==>
          if i < k then s[i].pid < x.pid else x.pid < s[i].pid)
    && (x.Leader() || (k > 0 && Follows(s[k - 1], x)))
    && (k == |s| || s[k].Leader() || Follows(x, s[k]))
  }

  lemma InsertKeepsOrder(s: seq<Task>, k: nat, x: Task)
    requires WellFormed(s) && k <= |s| && Fits(s, k, x)
    ensures WellFormed(s[..k] + [x] + s[k..])
  {
    var t := s[..k] + [x] + s[k..];
    assert forall i :: 0 <= i < k ==> t[i] == s[i];
    assert forall i :: k < i < |t| ==> t[i] == s[i - 1];
    forall i | 0 <= i < |t| ensures Linked(t, i) {
      if i < k { assert Linked(s, i); }
      if i > k + 1 { assert Linked(s, i - 1); }
    }
    forall i, j | 0 <= i < j < |t|
      ensures t[i].id != t[j].id && (t[i].Leader() && t[j].Leader() ==> t[i].pid < t[j].pid)
    {
    }
  }

  lemma InsertedLeaderFits(st: State, pid: int)
    requires ValidState(st)
    ensures var k := LeaderSlot(st.tasks, pid, 0);
            (k < |st.tasks| && st.tasks[k].pid == pid) || Fits(st.tasks, k, Task(st.nextId, pid, None, false, false))
  {
    LeaderSlotStops(st.tasks, pid, 0);
  }

  lemma InsertedThreadFits(st: State, l: nat, pid: int)
    requires ValidState(st) && l < |st.tasks| && st.tasks[l].Leader()
    ensures var owner := st.tasks[l].id;
            var k := ThreadSlot(st.tasks, owner, pid, l + 1);
            || (k < |st.tasks| && st.tasks[k].owner == Some(owner) && st.tasks[k].pid == pid)
            || Fits(st.tasks, k, Task(st.nextId, pid, Some(owner), false, false))
  {
    ThreadSlotStops(st.tasks, st.tasks[l].id, pid, l + 1);
    var k := ThreadSlot(st.tasks, st.tasks[l].id, pid, l + 1);
    assert Linked(st.tasks, k - 1);
    if k < |st.tasks| { assert Linked(st.tasks, k); }
  }

  lemma PlaceFits(st: State, pid: int, tgid: int)
    requires ValidState(st) && NoAlias(st.tasks, pid, tgid)
    ensures var p := PlaceFor(st.tasks, pid, tgid);
            || p.Nowhere? || Occupied(st.tasks, p, pid)
            || Fits(st.tasks, p.k, Task(st.nextId, pid, p.owner, false, false))
  {
    LeaderSlotStops(st.tasks, pid, 0);
    FirstWithNumberStops(st.tasks, tgid, 0);
    var p := PlaceFor(st.tasks, pid, tgid);
    if p.Here? && tgid == 0 { InsertedLeaderFits(st, pid); }
    if p.Here? && tgid != 0 { InsertedThreadFits(st, FirstWithNumber(st.tasks, tgid, 0), pid); }
  }

  /** When an earlier group has a thread numbered like the TGID, the new thread lands behind that thread. */
  lemma AliasBreaksOrder(st: State, pid: int, tgid: int)
    requires ValidState(st) && !NoAlias(st.tasks, pid, tgid)
    ensures !WellFormed(Add(st, pid, tgid).0.tasks)
  {
    FirstWithNumberStops(st.tasks, tgid, 0);
    var s, l := st.tasks, FirstWithNumber(st.tasks, tgid, 0);
    OwnerIsEarlierLeader(s, l);
    assert l + 1 < |s| ==> Linked(s, l + 1);
    var t := Inserted(st, l + 1, pid, Some(s[l].id)).tasks;
    assert t[l] == s[l] && t[l + 1].owner == Some(s[l].id);
    assert !Linked(t, l + 1);
  }

  /** add_list_pid keeps the list a sequence of groups exactly when the caller's numbers do not alias. */
  lemma AddKeepsOrderIff(st: State, pid: int, tgid: int)
    requires ValidState(st)
    ensures WellFormed(Add(st, pid, tgid).0.tasks) <==> NoAlias(st.tasks, pid, tgid)
    ensures NoAlias(st.tasks, pid, tgid) ==> ValidState(Add(st, pid, tgid).0)
  {
    var s := st.tasks;
    if !NoAlias(s, pid, tgid) {
      AliasBreaksOrder(st, pid, tgid);
    } else if Add(st, pid, tgid).0 != st {
      PlaceFits(st, pid, tgid);
      var p := PlaceFor(s, pid, tgid);
      InsertKeepsOrder(s, p.k, Task(st.nextId, pid, p.owner, false, false));
    }
  }

  /** Even where numbers alias, add_list_pid keeps the leaders ascending. */
  lemma AddKeepsLeadersAscend(st: State, pid: int, tgid: int)
    requires LeadersAscend(st.tasks)
    ensures LeadersAscend(Add(st, pid, tgid).0.tasks)
  {
    LeaderSlotStops(st.tasks, pid, 0);
    var s, p := st.tasks, PlaceFor(st.tasks, pid, tgid);
    if p.Here? && !Occupied(s, p, pid) {
      var t := Inserted(st, p.k, pid, p.owner).tasks;
      forall i, j | 0 <= i < j < |t| && t[i].Leader() && t[j].Leader() ensures t[i].pid < t[j].pid {
        assert i < p.k ==> t[i] == s[i];
        assert j > p.k ==> t[j] == s[j - 1];
        assert i > p.k ==> t[i] == s[i - 1];
        assert j < p.k ==> t[j] == s[j];
      }
    }
  }

  /** The leader that a number names in a list, if it is there. */
  ghost predicate IsLeaderNamed(t: Task, n: int) {
    t.Leader() && t.pid == n
  }

  /** The node that the program means by (pid, tgid): a leader, or a thread of the leader numbered tgid. */
  ghost predicate Means(s: seq<Task>, t: Task, pid: int, tgid: int) {
    && t.pid == pid
    && if tgid == 0 then t.Leader()
       else exists h :: 0 <= h < |s| && IsLeaderNamed(s[h], tgid) && t.owner == Some(s[h].id)
  }

  /** `t` is `s`, or `s` with one node more; `id` is the address of a node of `t` that the pair means. */
  ghost predicate AtMostOneMore(s: seq<Task>, t: seq<Task>, id: nat, pid: int, tgid: int) {
    exists k :: 0 <= k < |t| && t[k].id == id && Means(t, t[k], pid, tgid)
      && (t == s || (t[..k] + t[k + 1..] == s && !t[k].exist && !t[k].shown))
  }

  /**
    add_list_pid is insertion into a map keyed by (leader, number): it returns no node exactly
    for PID 0 or an absent leader; otherwise it returns the address of the node that the pair
    means, adds it only if no node had that meaning, and disturbs no other node.
   */
  lemma AddIsKeyedInsertion(st: State, pid: int, tgid: int)
    requires ValidState(st) && NoAlias(st.tasks, pid, tgid)
    ensures var (st', r) := Add(st, pid, tgid);
            && (r.None? <==>
                  pid == 0 || (tgid != 0 && forall h :: 0 <= h < |st.tasks| ==> !IsLeaderNamed(st.tasks[h], tgid)))
            && (r.None? ==> st' == st)
            && (r.Some? ==> AtMostOneMore(st.tasks, st'.tasks, r.value, pid, tgid))
            && (r.Some? ==> (st' == st <==> exists k :: 0 <= k < |st.tasks| && Means(st.tasks, st.tasks[k], pid, tgid)))
  {
    FirstWithNumberStops(st.tasks, tgid, 0);
    var s := st.tasks;
    var (st', r) := Add(st, pid, tgid);
    if r.Some? {
      AddedNodeIsMeant(st, pid, tgid);
      if st' != st {
        forall j | 0 <= j < |s| ensures !Means(s, s[j], pid, tgid) {
          if Means(s, s[j], pid, tgid) { MeantNodeIsFound(st, pid, tgid, j); }
        }
      }
    } else if pid != 0 {
      assert FirstWithNumber(s, tgid, 0) == |s|;
    }
  }

  /** The index in `s` of a node of `t`, which has one node more at `k`. */
  function Before(i: nat, k: nat): nat
    requires i != k
  {
    if i < k then i else i - 1
  }

  /** Where add_list_pid added its node. */
  lemma AddedAt(st: State, pid: int, tgid: int) returns (k: nat)
    requires Add(st, pid, tgid).0 != st
    ensures var t := Add(st, pid, tgid).0.tasks;
            && k < |t| && t[..k] + t[k + 1..] == st.tasks && !t[k].exist && !t[k].shown && t[k].id == st.nextId
            && PlaceFor(st.tasks, pid, tgid).Here? && k == PlaceFor(st.tasks, pid, tgid).k
  {
    var s, t := st.tasks, Add(st, pid, tgid).0.tasks;
    k := PlaceFor(s, pid, tgid).k;
    assert t[..k] == s[..k] && t[k + 1..] == s[k..];
  }

  lemma InsertedNodeIsMeant(st: State, pid: int, tgid: int) returns (k: nat)
    requires ValidState(st) && NoAlias(st.tasks, pid, tgid) && Add(st, pid, tgid).0 != st
    ensures var (t, r) := (Add(st, pid, tgid).0.tasks, Add(st, pid, tgid).1);
            && k < |t| && t[..k] + t[k + 1..] == st.tasks && Means(t, t[k], pid, tgid)
            && r == Some(t[k].id) && t[k].id == st.nextId && !t[k].exist && !t[k].shown
  {
    FirstWithNumberStops(st.tasks, tgid, 0);
    var s, t := st.tasks, Add(st, pid, tgid).0.tasks;
    k := AddedAt(st, pid, tgid);
    if tgid != 0 {
      var l := FirstWithNumber(s, tgid, 0);
      assert IsLeaderNamed(s[l], tgid) && t[l] == s[l];
    }
  }

  lemma AddedNodeIsMeant(st: State, pid: int, tgid: int)
    requires ValidState(st) && NoAlias(st.tasks, pid, tgid) && Add(st, pid, tgid).1.Some?
    ensures var (st', r) := Add(st, pid, tgid); AtMostOneMore(st.tasks, st'.tasks, r.value, pid, tgid)
    ensures tgid != 0 ==> exists h :: 0 <= h < |st.tasks| && IsLeaderNamed(st.tasks[h], tgid)
  {
    FirstWithNumberStops(st.tasks, tgid, 0);
    LeaderSlotStops(st.tasks, pid, 0);
    var s, t := st.tasks, Add(st, pid, tgid).0.tasks;
    if tgid != 0 { assert IsLeaderNamed(s[FirstWithNumber(s, tgid, 0)], tgid); }
    if t != s {
      var k := InsertedNodeIsMeant(st, pid, tgid);
    } else {
      var k := PlaceFor(s, pid, tgid).k;
      assert t[k].id == Add(st, pid, tgid).1.value && Means(t, t[k], pid, tgid);
    }
  }

  /** A node that the pair means is found: nothing is inserted. */
  lemma MeantNodeIsFound(st: State, pid: int, tgid: int, j: nat)
    requires ValidState(st) && NoAlias(st.tasks, pid, tgid) && pid != 0
    requires j < |st.tasks| && Means(st.tasks, st.tasks[j], pid, tgid)
    ensures Add(st, pid, tgid).0 == st
  {
    FirstWithNumberStops(st.tasks, tgid, 0);
    var s := st.tasks;
    if tgid == 0 {
      LeaderSlotIs(s, pid, j);
    } else {
      var h :| 0 <= h < |s| && IsLeaderNamed(s[h], tgid) && s[j].owner == Some(s[h].id);
      var l := FirstWithNumber(s, tgid, 0);
      assert l <= h && h == l;
      HeadOwnsGroup(s, j);
      assert Head(s, j) == l;
      ThreadSlotIs(s, s[l].id, pid, l + 1, j);
    }
  }

  /** Flags do not matter to the order of the leaders. */
  lemma FlagsKeepLeadersAscend(s: seq<Task>, t: seq<Task>)
    requires LeadersAscend(s) && |t| == |s|
    requires forall i :: 0 <= i < |s| ==> t[i].owner == s[i].owner && t[i].pid == s[i].pid
    ensures LeadersAscend(t)
  {
  }

  lemma LeaderSlotIs(s: seq<Task>, pid: int, k: nat)
    requires k < |s| && s[k].Leader() && pid <= s[k].pid
    requires forall j :: 0 <= j < k && s[j].Leader() ==> s[j].pid < pid
    ensures LeaderSlot(s, pid, 0) == k
  {
    LeaderSlotStops(s, pid, 0);
  }

  lemma FirstWithNumberIs(s: seq<Task>, n: int, k: nat)
    requires k < |s| && s[k].pid == n
    requires forall j :: 0 <= j < k ==> s[j].pid != n
    ensures FirstWithNumber(s, n, 0) == k
  {
    FirstWithNumberStops(s, n, 0);
  }

  lemma ThreadSlotIs(s: seq<Task>, owner: nat, pid: int, i: nat, k: nat)
    requires i <= k < |s| && (s[k].owner != Some(owner) || pid <= s[k].pid)
    requires forall j :: i <= j < k ==> s[j].owner == Some(owner) && s[j].pid < pid
    ensures ThreadSlot(s, owner, pid, i) == k
  {
    ThreadSlotStops(s, owner, pid, i);
  }

  /** A repeated call returns the same node and leaves the list alone. */
  lemma AddTwiceIsAddOnce(st: State, pid: int, tgid: int)
    ensures var (st', r) := Add(st, pid, tgid); Add(st', pid, tgid) == (st', r)
  {
    if Add(st, pid, tgid).0 != st {
      var p := PlaceFor(st.tasks, pid, tgid);
      var x := Task(st.nextId, pid, p.owner, false, false);
      SamePlace(st.tasks, x, pid, tgid);
    }
  }

  /** A new node is found where it was put. */
  lemma SamePlace(s: seq<Task>, x: Task, pid: int, tgid: int)
    requires PlaceFor(s, pid, tgid).Here? && x.pid == pid && x.owner == PlaceFor(s, pid, tgid).owner
    ensures var p := PlaceFor(s, pid, tgid);
            var t := s[..p.k] + [x] + s[p.k..];
            PlaceFor(t, pid, tgid) == p && t[p.k] == x
  {
    var k := PlaceFor(s, pid, tgid).k;
    var t := s[..k] + [x] + s[k..];
    assert t[k] == x && forall i :: 0 <= i < k ==> t[i] == s[i];
    if tgid == 0 {
      LeaderSlotStops(s, pid, 0);
      LeaderSlotIs(t, pid, k);
    } else {
      var l := FirstWithNumber(s, tgid, 0);
      FirstWithNumberStops(s, tgid, 0);
      ThreadSlotStops(s, s[l].id, pid, l + 1);
      FirstWithNumberIs(t, tgid, l);
      ThreadSlotIs(t, s[l].id, pid, l + 1, k);
    }
  }

  // ----- sfree_pid and set_pid_nonexistent

  /** set_pid_nonexistent. */
  function MarkAll(s: seq<Task>): (t: seq<Task>) {
    seq(|s|, i requires 0 <= i < |s| => s[i].(exist := false))
  }

  /** sfree_pid without force: the nodes that exist, in order. */
  function Sweep(s: seq<Task>): (t: seq<Task>) {
    if s == [] then [] else
      var n := |s| - 1;
      if s[n].exist then Sweep(s[..n]) + [s[n]] else Sweep(s[..n])
  }

  /** A node is left by the sweep exactly if it was in the list and exists. */
  lemma {:induction false} SweepMembers(s: seq<Task>)
    ensures forall x :: x in Sweep(s) <==> x in s && x.exist
  {
    if s != [] {
      var n := |s| - 1;
      SweepMembers(s[..n]);
      assert s == s[..n] + [s[n]];
    }
  }

  ghost predicate AllExist(s: seq<Task>) {
    forall i :: 0 <= i < |s| ==> s[i].exist
  }

  /** Every thread that exists has a leader that exists. */
  ghost predicate NoOrphan(s: seq<Task>) {
    forall i, h :: 0 <= h < |s| && 0 <= i < |s| && s[i].exist && s[i].owner == Some(s[h].id) ==> s[h].exist
  }

  /** What the swept prefix ends with, if the group of its last node exists. */
  ghost predicate EndsInGroup(t: seq<Task>, head: Task, last: Task) {
    && t != []
    && var e := t[|t| - 1]; e == head || (e.owner == Some(head.id) && e.pid <= last.pid)
  }

  lemma {:induction false} SweepEndsInGroup(s: seq<Task>)
    requires WellFormed(s) && s != []
    requires s[Head(s, |s| - 1)].exist
    ensures EndsInGroup(Sweep(s), s[Head(s, |s| - 1)], s[|s| - 1])
  {
    var n := |s| - 1;
    if !s[n].Leader() {
      assert Linked(s, n);
      PrefixWellFormed(s, n);
      PrefixHead(s, n - 1, n);
      HeadOwnsGroup(s, n);
      SweepEndsInGroup(s[..n]);
    }
  }

  lemma PrefixWellFormed(s: seq<Task>, n: nat)
    requires WellFormed(s) && n <= |s|
    ensures WellFormed(s[..n])
  {
    forall i | 0 <= i < n ensures Linked(s[..n], i) { assert Linked(s, i); }
  }

  lemma {:induction false} PrefixHead(s: seq<Task>, i: nat, n: nat)
    requires i < n <= |s|
    ensures Head(s[..n], i) == Head(s, i)
    decreases i
  {
    if !(s[i].Leader() || i == 0) { PrefixHead(s, i - 1, n); }
  }

  /** A node fits at the end of a list that has neither its address nor, before it, a larger leader. */
  lemma AppendKeepsOrder(p: seq<Task>, x: Task)
    requires WellFormed(p) && Fits(p, |p|, x)
    ensures WellFormed(p + [x])
  {
    assert p[..|p|] + [x] + p[|p|..] == p + [x];
    InsertKeepsOrder(p, |p|, x);
  }

  lemma {:induction false} SweepKeepsOrder(s: seq<Task>)
    requires WellFormed(s) && NoOrphan(s)
    ensures WellFormed(Sweep(s))
  {
    if s != [] {
      var n := |s| - 1;
      var p := Sweep(s[..n]);
      PrefixWellFormed(s, n);
      SweepKeepsOrder(s[..n]);
      if s[n].exist {
        SweepMembers(s[..n]);
        forall i | 0 <= i < |p|
          ensures p[i].id != s[n].id && (p[i].Leader() && s[n].Leader() ==> p[i].pid < s[n].pid)
        {
          assert p[i] in s[..n];
        }
        if !s[n].Leader() { SweptThreadFollows(s); }
        AppendKeepsOrder(p, s[n]);
      }
    }
  }

  /** The last thread of a list, if it exists, still follows its leader or a smaller thread after the sweep. */
  lemma SweptThreadFollows(s: seq<Task>)
    requires WellFormed(s) && NoOrphan(s) && s != [] && !s[|s| - 1].Leader() && s[|s| - 1].exist
    ensures var p := Sweep(s[..|s| - 1]); p != [] && Follows(p[|p| - 1], s[|s| - 1])
  {
    var n := |s| - 1;
    HeadOwnsGroup(s, n);
    assert Linked(s, n);
    PrefixWellFormed(s, n);
    PrefixHead(s, n - 1, n);
    var h := Head(s, n);
    assert s[h].exist;
    SweepEndsInGroup(s[..n]);
  }

  /** The sweep keeps the list a sequence of groups, and so every tgid pointer valid, exactly without orphans. */
  lemma SweepKeepsOrderIff(s: seq<Task>)
    requires WellFormed(s)
    ensures WellFormed(Sweep(s)) <==> NoOrphan(s)
  {
    if NoOrphan(s) { SweepKeepsOrder(s); }
    if WellFormed(Sweep(s)) { SweptOrderHasNoOrphan(s); }
  }

  lemma SweptOrderHasNoOrphan(s: seq<Task>)
    requires WellFormed(s) && WellFormed(Sweep(s))
    ensures NoOrphan(s)
  {
    var t := Sweep(s);
    SweepMembers(s);
    forall i, h | 0 <= h < |s| && 0 <= i < |s| && s[i].exist && s[i].owner == Some(s[h].id) ensures s[h].exist {
      assert s[i] in t;
      var k :| 0 <= k < |t| && t[k] == s[i];
      OwnerIsEarlierLeader(t, k);
      var g :| 0 <= g < k && t[g].Leader() && t[k].owner == Some(t[g].id);
      assert t[g] in s;
    }
  }
}
