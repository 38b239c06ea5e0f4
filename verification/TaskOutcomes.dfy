/** Which tasks a sample of pidstat leaves in the list, in terms of what each read brought. */
module TaskOutcomes {
  import opened Wrappers
  import opened TaskModel
  import opened TaskSamples
  import opened TaskOrder
  import opened TaskGroups

  // ----- What is in a list

  ghost predicate LeaderIn(s: seq<Task>, p: int) {
    exists i :: 0 <= i < |s| && s[i].Leader() && s[i].pid == p
  }

  /** Thread t of leader p is in the list. */
  ghost predicate ThreadIn(s: seq<Task>, p: int, t: int) {
    exists i, h :: 0 <= i < |s| && 0 <= h < |s| && IsThreadOf(s[i], s[h], p, t)
  }

  predicate IsThreadOf(a: Task, b: Task, p: int, t: int) {
    b.Leader() && b.pid == p && a.owner == Some(b.id) && a.pid == t
  }

  lemma LeaderInIff(s: seq<Task>, p: int)
    ensures LeaderIn(s, p) <==> HasNode(s, Lead(p))
  {
    if HasNode(s, Lead(p)) {
      var i :| 0 <= i < |s| && Names(s, i, Lead(p));
      assert s[i].Leader() && s[i].pid == p;
    }
    if LeaderIn(s, p) {
      var i :| 0 <= i < |s| && s[i].Leader() && s[i].pid == p;
      assert Names(s, i, Lead(p));
    }
  }

  lemma ThreadInIff(s: seq<Task>, p: int, t: int)
    ensures ThreadIn(s, p, t) <==> HasNode(s, Thread(p, t))
  {
    if HasNode(s, Thread(p, t)) {
      var i :| 0 <= i < |s| && Names(s, i, Thread(p, t));
      var h :| 0 <= h < |s| && IsLeaderNamed(s[h], p) && s[i].owner == Some(s[h].id);
      assert IsThreadOf(s[i], s[h], p, t);
    }
    if ThreadIn(s, p, t) {
      var i, h :| 0 <= i < |s| && 0 <= h < |s| && IsThreadOf(s[i], s[h], p, t);
      assert IsLeaderNamed(s[h], p) && Names(s, i, Thread(p, t));
    }
  }

  // ----- What was last heard, read by read

  /** The last entry for t succeeded. */
  ghost predicate LastEntryOk(rs: seq<ThreadRead>, t: int) {
    exists m :: 0 <= m < |rs| && rs[m].tid == t && rs[m].ok && forall j :: m < j < |rs| ==> rs[j].tid != t
  }

  predicate HasEntry(rs: seq<ThreadRead>, t: int) {
    exists m :: 0 <= m < |rs| && rs[m].tid == t
  }

  /** Visit k is the last of its PID. */
  ghost predicate LastVisit(vs: seq<Visit>, p: int, k: nat) {
    k < |vs| && vs[k].pid == p && forall j :: k < j < |vs| ==> vs[j].pid != p
  }

  /** Visit k of p was the last that listed t, among those that succeeded. */
  ghost predicate LastListing(vs: seq<Visit>, p: int, t: int, k: nat) {
    && k < |vs| && vs[k].pid == p && vs[k].ok && HasEntry(vs[k].threads, t)
    && forall j :: k < j < |vs| && vs[j].pid == p && vs[j].ok ==> !HasEntry(vs[j].threads, t)
  }

  ghost predicate LeaderRead(vs: seq<Visit>, p: int) {
    p != 0 && exists k: nat :: LastVisit(vs, p, k) && vs[k].ok
  }

  ghost predicate ThreadWasRead(vs: seq<Visit>, tids: bool, p: int, t: int) {
    tids && p != 0 && t != 0 && exists k: nat :: LastListing(vs, p, t, k) && LastEntryOk(vs[k].threads, t)
  }

  lemma {:induction false} AfterThreadsIs(up: Marks, g: int, rs: seq<ThreadRead>, t: int)
    requires t != 0
    ensures AfterThreads(up, g, rs)(Thread(g, t)) <==> if HasEntry(rs, t) then LastEntryOk(rs, t) else up(Thread(g, t))
  {
    if rs != [] {
      AfterThreadsIs(up, g, rs[..|rs| - 1], t);
    }
  }

  lemma {:induction false} NoThreadZero(up: Marks, g: int, rs: seq<ThreadRead>)
    ensures AfterThreads(up, g, rs)(Thread(g, 0)) == up(Thread(g, 0))
  {
    if rs != [] { NoThreadZero(up, g, rs[..|rs| - 1]); }
  }

  /** What a sample last heard of a leader: its last visit succeeded. */
  lemma {:induction false} LeaderHeardIff(vs: seq<Visit>, tids: bool, p: int)
    ensures LastHeard(vs, tids)(Lead(p)) <==> LeaderRead(vs, p)
  {
    if vs != [] {
      var n := |vs| - 1;
      var v, before := vs[n], LastHeard(vs[..n], tids);
      LeaderHeardIff(vs[..n], tids, p);
      ThreadsTellOfThreads(Then(before, Lead(v.pid), v.ok), v.pid, v.threads, Lead(p));
    }
  }

  /** And of a thread: the last successful visit of its leader that listed it ended with success for it. */
  lemma {:induction false} ThreadHeardIff(vs: seq<Visit>, tids: bool, p: int, t: int)
    ensures LastHeard(vs, tids)(Thread(p, t)) <==> ThreadWasRead(vs, tids, p, t)
  {
    if vs != [] {
      var n := |vs| - 1;
      var v, before := vs[n], LastHeard(vs[..n], tids);
      var lead := Then(before, Lead(v.pid), v.ok);
      ThreadHeardIff(vs[..n], tids, p, t);
      if v.pid != p {
        ThreadsTellOfThreads(lead, v.pid, v.threads, Thread(p, t));
      } else if t == 0 {
        NoThreadZero(lead, p, v.threads);
      } else {
        AfterThreadsIs(lead, p, v.threads, t);
      }
    }
  }

  // ----- What a sample leaves

  lemma SweptNames(s: seq<Task>, up: Marks, key: Key)
    requires WellFormed(s) && Told(s, up) && (forall g, t :: up(Thread(g, t)) ==> up(Lead(g)))
    ensures HasNode(Sweep(s), key) <==> up(key)
  {
    var t := Sweep(s);
    SweepMembers(s);
    if up(key) {
      var i :| 0 <= i < |s| && Names(s, i, key);
      assert s[i].exist && s[i] in t;
      var i' :| 0 <= i' < |t| && t[i'] == s[i];
      if key.Thread? {
        var h :| 0 <= h < |s| && IsLeaderNamed(s[h], key.tgid) && s[i].owner == Some(s[h].id);
        assert Names(s, h, Lead(key.tgid)) && s[h].exist && s[h] in t;
        var h' :| 0 <= h' < |t| && t[h'] == s[h];
        assert IsLeaderNamed(t[h'], key.tgid);
      }
      assert Names(t, i', key);
    }
    if HasNode(t, key) {
      var i' :| 0 <= i' < |t| && Names(t, i', key);
      assert t[i'] in t;
      var i :| 0 <= i < |s| && s[i] == t[i'];
      if key.Thread? {
        var h' :| 0 <= h' < |t| && IsLeaderNamed(t[h'], key.tgid) && t[i'].owner == Some(t[h'].id);
        assert t[h'] in t;
        var h :| 0 <= h < |s| && s[h] == t[h'];
        assert IsLeaderNamed(s[h], key.tgid);
      }
      assert Names(s, i, key);
    }
  }

  lemma SampleLeaves(st: State, vs: seq<Visit>, tids: bool, key: Key)
    requires ValidState(st) && SampleClear(st, vs, tids)
    ensures HasNode(Sample(st, vs, tids).tasks, key) <==> LastHeard(vs, tids)(key)
  {
    MarkedIsValid(st);
    var m := Marked(st);
    assert vs[..|vs|] == vs;
    ScanTold(m, vs, tids, |vs|);
    ClearScanIsOrdered(m, vs, tids, |vs|);
    SweptNames(Scan(m, vs, tids).tasks, LastHeard(vs, tids), key);
  }

  /** The tasks in a list are exactly those that the visits brought. */
  ghost predicate AsRead(s: seq<Task>, vs: seq<Visit>, tids: bool) {
    && (forall p :: LeaderIn(s, p) <==> LeaderRead(vs, p))
    && (forall p, t :: ThreadIn(s, p, t) <==> ThreadWasRead(vs, tids, p, t))
  }

  /** A clear sample leaves exactly the leaders and threads that were last read successfully. */
  lemma SampleIsAsRead(st: State, vs: seq<Visit>, tids: bool)
    requires ValidState(st) && SampleClear(st, vs, tids)
    ensures AsRead(Sample(st, vs, tids).tasks, vs, tids)
  {
    var s := Sample(st, vs, tids).tasks;
    forall p ensures LeaderIn(s, p) <==> LeaderRead(vs, p) {
      LeaderInIff(s, p);
      SampleLeaves(st, vs, tids, Lead(p));
      LeaderHeardIff(vs, tids, p);
    }
    forall p, t ensures ThreadIn(s, p, t) <==> ThreadWasRead(vs, tids, p, t) {
      ThreadInIff(s, p, t);
      SampleLeaves(st, vs, tids, Thread(p, t));
      ThreadHeardIff(vs, tids, p, t);
    }
  }

  // ----- The PIDs given on the command line

  /**
    The list `t` holds the leaders of `s` whose read succeeded, and the threads that those reads
    listed and read last.
   */
  ghost predicate AsProbed(s: seq<Task>, t: seq<Task>, probe: int -> Outcome, tids: bool) {
    && (forall p :: LeaderIn(t, p) <==> LeaderIn(s, p) && p != 0 && probe(p).ok)
    && (forall p, x :: ThreadIn(t, p, x) <==>
          LeaderIn(s, p) && p != 0 && probe(p).ok && tids && x != 0 && LastEntryOk(probe(p).threads, x))
  }

  lemma {:induction false} LeaderPidsAre(s: seq<Task>, p: int)
    ensures p in LeaderPids(s) <==> LeaderIn(s, p)
  {
    if s != [] {
      var r := s[1..];
      LeaderPidsAre(r, p);
      assert forall i :: 0 <= i < |r| ==> r[i] == s[i + 1];
      if LeaderIn(r, p) {
        var i :| 0 <= i < |r| && r[i].Leader() && r[i].pid == p;
        assert s[i + 1].Leader() && s[i + 1].pid == p;
      }
      if LeaderIn(s, p) {
        var i :| 0 <= i < |s| && s[i].Leader() && s[i].pid == p;
        assert i > 0 ==> r[i - 1].Leader() && r[i - 1].pid == p;
      }
    }
  }

  lemma ProbedVisit(s: seq<Task>, probe: int -> Outcome, tids: bool, p: int, x: int)
    requires LeadersAscend(s)
    ensures var vs := Visits(LeaderPids(s), probe);
            && (LeaderRead(vs, p) <==> LeaderIn(s, p) && p != 0 && probe(p).ok)
            && (ThreadWasRead(vs, tids, p, x) <==>
                  LeaderIn(s, p) && p != 0 && probe(p).ok && tids && x != 0 && LastEntryOk(probe(p).threads, x))
  {
    var pids := LeaderPids(s);
    var vs := Visits(pids, probe);
    LeaderPidsAre(s, p);
    LeaderPidsAscend(s);
    assert forall k :: 0 <= k < |vs| ==>
      vs[k].pid == pids[k] && vs[k].ok == probe(pids[k]).ok && vs[k].threads == probe(pids[k]).threads;
    if p in pids {
      var k :| 0 <= k < |pids| && pids[k] == p;
      assert LastVisit(vs, p, k) && forall j: nat :: LastVisit(vs, p, j) ==> j == k;
      assert probe(p).ok && HasEntry(probe(p).threads, x) ==> LastListing(vs, p, x, k);
      forall j: nat | LastListing(vs, p, x, j) ensures j == k { }
    }
  }

  lemma ListedSampleIsAsProbed(st: State, probe: int -> Outcome, tids: bool)
    requires ValidState(st) && SampleClear(st, Visits(LeaderPids(st.tasks), probe), tids)
    ensures AsProbed(st.tasks, Sample(st, Visits(LeaderPids(st.tasks), probe), tids).tasks, probe, tids)
  {
    var vs := Visits(LeaderPids(st.tasks), probe);
    SampleIsAsRead(st, vs, tids);
    forall p ensures LeaderRead(vs, p) <==> LeaderIn(st.tasks, p) && p != 0 && probe(p).ok {
      ProbedVisit(st.tasks, probe, tids, p, 0);
    }
    forall p, x
      ensures ThreadWasRead(vs, tids, p, x) <==>
                LeaderIn(st.tasks, p) && p != 0 && probe(p).ok && tids && x != 0 && LastEntryOk(probe(p).threads, x)
    {
      ProbedVisit(st.tasks, probe, tids, p, x);
    }
  }

  /** In particular where numbers name one group each. */
  lemma ListedSampleOutcome(st: State, probe: int -> Outcome, tids: bool, group: int -> int, next: int -> int)
    requires ValidState(st) && Owned(st.tasks, group)
    requires var vs := Visits(LeaderPids(st.tasks), probe); Consistent(vs, group) && Consistent(vs, next)
    ensures AsProbed(st.tasks, Sample(st, Visits(LeaderPids(st.tasks), probe), tids).tasks, probe, tids)
  {
    var vs := Visits(LeaderPids(st.tasks), probe);
    ListedVisitsDoNotFailLate(st.tasks, probe);
    SampleKeepsOrder(st, vs, tids, group, next);
    ListedSampleIsAsProbed(st, probe, tids);
  }
}
