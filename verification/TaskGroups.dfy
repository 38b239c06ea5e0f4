/**
  Numbers that name one group each: an assumption on the processes of a machine under which
  pidstat keeps its task list in order.
 */
module TaskGroups {
  import opened Wrappers
  import opened TaskModel
  import opened TaskSamples
  import opened TaskOrder

  // ----- Numbers that name one group each

  /** The number of node `i` belongs to the group that `group` gives it. */
  ghost predicate OwnedNode(s: seq<Task>, i: nat, group: int -> int)
    requires i < |s|
  {
    if s[i].Leader() then group(s[i].pid) == s[i].pid
    else forall h :: 0 <= h < |s| && s[i].owner == Some(s[h].id) ==> group(s[i].pid) == s[h].pid
  }

  ghost predicate Owned(s: seq<Task>, group: int -> int) {
    forall i :: 0 <= i < |s| ==> OwnedNode(s, i, group)
  }

  /** The same for the tasks known to exist. */
  ghost predicate OwnedExisting(s: seq<Task>, group: int -> int) {
    forall i :: 0 <= i < |s| && s[i].exist ==> OwnedNode(s, i, group)
  }

  /** No number is met both as a leader and as a TID of another leader. */
  ghost predicate Consistent(vs: seq<Visit>, group: int -> int) {
    forall i :: 0 <= i < |vs| ==> ConsistentVisit(vs[i], group)
  }

  ghost predicate ConsistentVisit(v: Visit, group: int -> int) {
    && group(v.pid) == v.pid
    && forall k :: 0 <= k < |v.threads| ==> group(v.threads[k].tid) == v.pid
  }

  /** A PID that was read is not met again in the same sample as terminated. Visiting each PID once implies it. */
  ghost predicate NoLateFailure(vs: seq<Visit>) {
    forall i, j :: 0 <= i < j < |vs| && vs[i].pid == vs[j].pid && vs[i].ok ==> vs[j].ok
  }

  /** If numbers name one group each, a leader's number is never first met on a foreign thread. */
  lemma OwnedNumbersDoNotAlias(s: seq<Task>, pid: int, tgid: int, group: int -> int)
    requires WellFormed(s) && Owned(s, group) && (tgid == 0 || group(tgid) == tgid)
    ensures NoAlias(s, pid, tgid)
  {
    FirstWithNumberStops(s, tgid, 0);
    var l := FirstWithNumber(s, tgid, 0);
    assert l < |s| ==> OwnedNode(s, l, group);
    if tgid != 0 && l < |s| && !s[l].Leader() {
      OwnerIsEarlierLeader(s, l);
    }
  }

  ghost predicate GroupOf(group: int -> int, pid: int, tgid: int) {
    if tgid == 0 then group(pid) == pid else group(tgid) == tgid && group(pid) == tgid
  }

  lemma SetExistKeepsOwned(t: seq<Task>, id: nat, ok: bool, i: nat, group: int -> int)
    requires i < |t| && OwnedNode(t, i, group)
    ensures OwnedNode(SetExist(t, id, ok), i, group)
  {
  }

  /** A node inserted at `k` leaves the other nodes in their groups, and joins its own. */
  lemma InsertedOwned(s: seq<Task>, t: seq<Task>, k: nat, i: nat, pid: int, tgid: int, group: int -> int)
    requires WellFormed(s) && WellFormed(t) && GroupOf(group, pid, tgid)
    requires i < |t| && k < |t| && t[..k] + t[k + 1..] == s && Means(t, t[k], pid, tgid)
    requires i == k || OwnedNode(s, Before(i, k), group)
    ensures OwnedNode(t, i, group)
  {
    if i == k {
    } else {
      assert t[i] == s[Before(i, k)];
      forall h | 0 <= h < |t| && t[i].owner == Some(t[h].id) ensures group(t[i].pid) == t[h].pid {
        OwnersUnchanged(s, t, k, i, h);
      }
    }
  }

  lemma AddKeepsOwned(st: State, pid: int, tgid: int, group: int -> int)
    requires ValidState(st) && Owned(st.tasks, group) && GroupOf(group, pid, tgid)
    ensures ValidState(Add(st, pid, tgid).0) && NoAlias(st.tasks, pid, tgid)
    ensures Owned(Add(st, pid, tgid).0.tasks, group)
  {
    OwnedNumbersDoNotAlias(st.tasks, pid, tgid, group);
    AddKeepsOrderIff(st, pid, tgid);
    var (st', r) := Add(st, pid, tgid);
    if st' != st {
      var k := InsertedNodeIsMeant(st, pid, tgid);
      var t := st'.tasks;
      forall i | 0 <= i < |t| ensures OwnedNode(t, i, group) {
        InsertedOwned(st.tasks, t, k, i, pid, tgid, group);
      }
    }
  }

  /** A task known to exist, or the one that add_list_pid just returned, is in its group. */
  lemma AddedOwnedExisting(st: State, pid: int, tgid: int, i: nat, group: int -> int)
    requires ValidState(st) && NoAlias(st.tasks, pid, tgid) && GroupOf(group, pid, tgid)
    requires OwnedExisting(st.tasks, group)
    requires var (st', r) := Add(st, pid, tgid);
             r.Some? && i < |st'.tasks| && (st'.tasks[i].exist || st'.tasks[i].id == r.value)
    ensures OwnedNode(Add(st, pid, tgid).0.tasks, i, group)
  {
    AddKeepsOrderIff(st, pid, tgid);
    var (st', r) := Add(st, pid, tgid);
    var t := st'.tasks;
    if st' != st {
      var k := InsertedNodeIsMeant(st, pid, tgid);
      if i != k { assert t[i] == st.tasks[Before(i, k)]; }
      InsertedOwned(st.tasks, t, k, i, pid, tgid, group);
    } else if t[i].id == r.value {
      AddedNodeIsMeant(st, pid, tgid);
      var k :| 0 <= k < |t| && t[k].id == r.value && Means(t, t[k], pid, tgid);
    }
  }

  lemma FoundKeepsOwnedExisting(st: State, pid: int, tgid: int, ok: bool, group: int -> int)
    requires ValidState(st) && NoAlias(st.tasks, pid, tgid) && GroupOf(group, pid, tgid)
    requires OwnedExisting(st.tasks, group)
    ensures OwnedExisting(Found(Add(st, pid, tgid), ok).tasks, group)
  {
    var (st', r) := Add(st, pid, tgid);
    if r.Some? {
      var t, u := st'.tasks, SetExist(st'.tasks, r.value, ok);
      forall i | 0 <= i < |u| && u[i].exist ensures OwnedNode(u, i, group) {
        AddedOwnedExisting(st, pid, tgid, i, group);
        SetExistKeepsOwned(t, r.value, ok, i, group);
      }
    }
  }

  // ----- What every step keeps

  /**
    The list is in order; `group` explains its numbers, and `next` those of the tasks that
    were met in this sample.
   */
  ghost predicate Explained(st: State, group: int -> int, next: int -> int) {
    ValidState(st) && Owned(st.tasks, group) && OwnedExisting(st.tasks, next)
  }

  lemma FoundKeepsExplained(st: State, pid: int, tgid: int, ok: bool, group: int -> int, next: int -> int)
    requires Explained(st, group, next) && GroupOf(group, pid, tgid) && GroupOf(next, pid, tgid)
    ensures Explained(Found(Add(st, pid, tgid), ok), group, next) && NoAlias(st.tasks, pid, tgid)
  {
    AddKeepsOwned(st, pid, tgid, group);
    FoundKeepsOwnedExisting(st, pid, tgid, ok, next);
    var (st', r) := Add(st, pid, tgid);
    if r.Some? {
      var u := SetExist(st'.tasks, r.value, ok);
      SetExistKeepsOrder(st'.tasks, r.value, ok);
      forall i | 0 <= i < |u| ensures OwnedNode(u, i, group) {
        SetExistKeepsOwned(st'.tasks, r.value, ok, i, group);
      }
    }
  }

  lemma {:induction false} VisitThreadsKeepsExplained(st: State, tgid: int, rs: seq<ThreadRead>, group: int -> int,
                                                      next: int -> int)
    requires Explained(st, group, next) && tgid != 0 && group(tgid) == tgid && next(tgid) == tgid
    requires forall k :: 0 <= k < |rs| ==> group(rs[k].tid) == tgid && next(rs[k].tid) == tgid
    ensures Explained(VisitThreads(st, tgid, rs), group, next)
  {
    if rs != [] {
      var n := |rs| - 1;
      VisitThreadsKeepsExplained(st, tgid, rs[..n], group, next);
      FoundKeepsExplained(VisitThreads(st, tgid, rs[..n]), rs[n].tid, tgid, rs[n].ok, group, next);
    }
  }

  lemma {:induction false} ScanKeepsExplained(st: State, vs: seq<Visit>, tids: bool, group: int -> int,
                                              next: int -> int)
    requires Explained(st, group, next) && Consistent(vs, group) && Consistent(vs, next)
    ensures Explained(Scan(st, vs, tids), group, next)
  {
    if vs != [] {
      var n := |vs| - 1;
      var v, st' := vs[n], Scan(st, vs[..n], tids);
      assert ConsistentVisit(v, group) && ConsistentVisit(v, next);
      ScanKeepsExplained(st, vs[..n], tids, group, next);
      FoundKeepsExplained(st', v.pid, 0, v.ok, group, next);
      if v.pid != 0 && v.ok && tids {
        VisitThreadsKeepsExplained(Found(Add(st', v.pid, 0), v.ok), v.pid, v.threads, group, next);
      }
    }
  }

  // ----- Samples and runs

  lemma SweepKeepsOwned(s: seq<Task>, group: int -> int)
    requires OwnedExisting(s, group)
    ensures Owned(Sweep(s), group)
  {
    var t := Sweep(s);
    SweepMembers(s);
    forall i | 0 <= i < |t| ensures OwnedNode(t, i, group) {
      assert t[i] in s;
      var j :| 0 <= j < |s| && s[j] == t[i];
      assert OwnedNode(s, j, group);
      forall h | 0 <= h < |t| && t[i].owner == Some(t[h].id) ensures group(t[i].pid) == t[h].pid {
        assert t[h] in s;
      }
    }
  }

  /** What is asked of one sample: `group` explains the list and this sample, `next` this sample and the coming list. */
  ghost predicate SoundSample(vs: seq<Visit>, group: int -> int, next: int -> int) {
    Consistent(vs, group) && Consistent(vs, next) && NoLateFailure(vs)
  }

  // ----- No leader is found terminated after it was read

  lemma {:induction false} ThreadsTellOfThreads(up: Marks, tgid: int, rs: seq<ThreadRead>, key: Key)
    requires key.Lead? || key.tgid != tgid
    ensures AfterThreads(up, tgid, rs)(key) == up(key)
  {
    if rs != [] { ThreadsTellOfThreads(up, tgid, rs[..|rs| - 1], key); }
  }

  ghost predicate WasRead(vs: seq<Visit>, pid: int) {
    exists j :: 0 <= j < |vs| && vs[j].pid == pid && vs[j].ok
  }

  lemma {:induction false} HeardThreadWasListed(vs: seq<Visit>, tids: bool, g: int, t: int)
    requires LastHeard(vs, tids)(Thread(g, t))
    ensures g != 0 && WasRead(vs, g)
  {
    var n := |vs| - 1;
    var v := vs[n];
    if LastHeard(vs[..n], tids)(Thread(g, t)) {
      HeardThreadWasListed(vs[..n], tids, g, t);
      assert WasRead(vs[..n], g);
      var j :| 0 <= j < n && vs[..n][j].pid == g && vs[..n][j].ok;
      assert vs[j] == vs[..n][j];
    } else {
      var lead := Then(LastHeard(vs[..n], tids), Lead(v.pid), v.ok);
      if v.pid != g { ThreadsTellOfThreads(lead, v.pid, v.threads, Thread(g, t)); }
      assert v.pid == g != 0 && v.ok;
    }
  }

  lemma {:induction false} ReadLeaderIsHeard(vs: seq<Visit>, tids: bool, g: int)
    requires g != 0 && WasRead(vs, g) && NoLateFailure(vs)
    ensures LastHeard(vs, tids)(Lead(g))
  {
    var n := |vs| - 1;
    var v, before := vs[n], LastHeard(vs[..n], tids);
    var j :| 0 <= j < |vs| && vs[j].pid == g && vs[j].ok;
    ThreadsTellOfThreads(Then(before, Lead(v.pid), v.ok), v.pid, v.threads, Lead(g));
    if v.pid != g {
      assert vs[..n][j] == vs[j];
      ReadLeaderIsHeard(vs[..n], tids, g);
    }
  }

  /** If no PID that was read is met again as terminated, no thread is left over. */
  lemma NoLateFailureLeavesNothing(vs: seq<Visit>, tids: bool)
    requires NoLateFailure(vs)
    ensures NoLeftover(vs, tids)
  {
    forall g, t | LastHeard(vs, tids)(Thread(g, t)) ensures LastHeard(vs, tids)(Lead(g)) {
      HeardThreadWasListed(vs, tids, g, t);
      ReadLeaderIsHeard(vs, tids, g);
    }
  }

  // ----- Samples and runs

  /** What is asked is enough for a sample, and carries over to the list that it leaves. */
  lemma SampleKeepsOrder(st: State, vs: seq<Visit>, tids: bool, group: int -> int, next: int -> int)
    requires ValidState(st) && Owned(st.tasks, group) && SoundSample(vs, group, next)
    ensures SampleClear(st, vs, tids) && SampleOrdered(st, vs, tids)
    ensures Owned(Sample(st, vs, tids).tasks, next) && AllExist(Sample(st, vs, tids).tasks)
  {
    var m := Marked(st);
    MarkedIsValid(st);
    forall i | 0 <= i < |m.tasks| ensures OwnedNode(m.tasks, i, group) {
      assert OwnedNode(st.tasks, i, group);
    }
    forall j | 0 <= j <= |vs| ensures ValidState(Scan(m, vs[..j], tids)) {
      ScanKeepsExplained(m, vs[..j], tids, group, next);
    }
    assert vs[..|vs|] == vs;
    ScanKeepsExplained(m, vs, tids, group, next);
    ScanKeepsOrderIff(m, vs, tids);
    NoLateFailureLeavesNothing(vs, tids);
    SampleKeepsOrderIff(st, vs, tids);
    SweepKeepsOwned(Scan(m, vs, tids).tasks, next);
  }

  /**
    `groups[k]` explains the numbers of sample k and of the list that it starts from. A number
    that is given to another group must have been out of use for one sample.
   */
  ghost predicate SoundRun(st: State, samples: seq<seq<Visit>>, groups: seq<int -> int>) {
    && |groups| == |samples| + 1
    && Owned(st.tasks, groups[0])
    && forall k :: 0 <= k < |samples| ==> SoundSample(samples[k], groups[k], groups[k + 1])
  }

  /** The same for a run; so every tgid pointer refers to a task in the list. */
  lemma {:induction false} RunKeepsOrder(st: State, samples: seq<seq<Visit>>, tids: bool, groups: seq<int -> int>)
    requires ValidState(st) && SoundRun(st, samples, groups)
    ensures RunOrdered(st, samples, tids)
    ensures var end := Run(st, samples, tids);
            && ValidState(end) && Owned(end.tasks, groups[|samples|])
            && (samples != [] ==> AllExist(end.tasks))
            && (forall i :: 0 <= i < |end.tasks| && !end.tasks[i].Leader()
                  ==> exists h :: 0 <= h < i && end.tasks[i].owner == Some(end.tasks[h].id))
  {
    if samples != [] {
      var n := |samples| - 1;
      RunKeepsOrder(st, samples[..n], tids, groups[..n + 1]);
      SampleKeepsOrder(Run(st, samples[..n], tids), samples[n], tids, groups[n], groups[n + 1]);
      forall k | 0 <= k < |samples| ensures SampleOrdered(Run(st, samples[..k], tids), samples[k], tids) {
        if k < n { assert samples[..n][..k] == samples[..k] && samples[..n][k] == samples[k]; }
      }
    }
    var t := Run(st, samples, tids).tasks;
    forall i | 0 <= i < |t| && !t[i].Leader() ensures exists h :: 0 <= h < i && t[i].owner == Some(t[h].id) {
      OwnerIsEarlierLeader(t, i);
    }
  }

  // ----- The PIDs given on the command line

  lemma {:induction false} LeaderPidsAreLeaders(s: seq<Task>, p: int)
    requires p in LeaderPids(s)
    ensures exists i :: 0 <= i < |s| && IsLeaderNamed(s[i], p)
  {
    if IsLeaderNamed(s[0], p) {
    } else {
      LeaderPidsAreLeaders(s[1..], p);
      var i :| 0 <= i < |s[1..]| && IsLeaderNamed(s[1..][i], p);
      assert s[i + 1] == s[1..][i];
    }
  }

  /** The scan over the list meets the PIDs in ascending order. */
  lemma {:induction false} LeaderPidsAscend(s: seq<Task>)
    requires LeadersAscend(s)
    ensures forall i, j :: 0 <= i < j < |LeaderPids(s)| ==> LeaderPids(s)[i] < LeaderPids(s)[j]
  {
    if s != [] {
      var rest := LeaderPids(s[1..]);
      LeaderPidsAscend(s[1..]);
      forall j | 0 <= j < |rest| && s[0].Leader() ensures s[0].pid < rest[j] {
        LeaderPidsAreLeaders(s[1..], rest[j]);
      }
    }
  }

  /** So no PID is met twice, let alone found terminated late. */
  lemma ListedVisitsDoNotFailLate(s: seq<Task>, probe: int -> Outcome)
    requires LeadersAscend(s)
    ensures NoLateFailure(Visits(LeaderPids(s), probe))
  {
    LeaderPidsAscend(s);
  }

  /** With PIDs on the command line, it is enough that numbers name one group each. */
  lemma ListedSampleKeepsOrder(st: State, probe: int -> Outcome, tids: bool, group: int -> int, next: int -> int)
    requires ValidState(st) && Owned(st.tasks, group)
    requires var vs := Visits(LeaderPids(st.tasks), probe); Consistent(vs, group) && Consistent(vs, next)
    ensures SampleOrdered(st, Visits(LeaderPids(st.tasks), probe), tids)
  {
    ListedVisitsDoNotFailLate(st.tasks, probe);
    SampleKeepsOrder(st, Visits(LeaderPids(st.tasks), probe), tids, group, next);
  }
}
