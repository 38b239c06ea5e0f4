/**
  One sample of pidstat (mark every task nonexistent, visit PIDs and their threads with any
  outcome, sweep) and runs of samples, as functions on task lists; what every run keeps.
 */
module TaskSamples {
  import opened Wrappers
  import opened TaskModel

  /** A TID met in /proc/PID/task, and whether its statistics could be read. */
  datatype ThreadRead = ThreadRead(tid: int, ok: bool)

  /** A PID met in /proc, whether its statistics could be read, and what its task directory then lists. */
  datatype Visit = Visit(pid: int, ok: bool, threads: seq<ThreadRead>)

  // ----- The steps of a sample

  function SetExist(s: seq<Task>, id: nat, b: bool): (t: seq<Task>) {
    seq(|s|, i requires 0 <= i < |s| => if s[i].id == id then s[i].(exist := b) else s[i])
  }

  function Found(r: (State, Option<nat>), ok: bool): State {
    if r.1.None? then r.0 else State(SetExist(r.0.tasks, r.1.value, ok), r.0.nextId)
  }

  /** The body of the loop of read_task_stats. */
  function VisitThread(st: State, tgid: int, r: ThreadRead): State {
    Found(Add(st, r.tid, tgid), r.ok)
  }

  /** read_task_stats. */
  function VisitThreads(st: State, tgid: int, rs: seq<ThreadRead>): State {
    if rs == [] then st else VisitThread(VisitThreads(st, tgid, rs[..|rs| - 1]), tgid, rs[|rs| - 1])
  }

  /** The body of the loop of read_stats over /proc; `tids` says whether threads are wanted. */
  function VisitPid(st: State, v: Visit, tids: bool): State {
    var st' := Found(Add(st, v.pid, 0), v.ok);
    if v.pid != 0 && v.ok && tids then VisitThreads(st', v.pid, v.threads) else st'
  }

  function Scan(st: State, vs: seq<Visit>, tids: bool): State {
    if vs == [] then st else VisitPid(Scan(st, vs[..|vs| - 1], tids), vs[|vs| - 1], tids)
  }

  function Marked(st: State): State {
    State(MarkAll(st.tasks), st.nextId)
  }

  function Swept(st: State): State {
    State(Sweep(st.tasks), st.nextId)
  }

  function Sample(st: State, vs: seq<Visit>, tids: bool): State {
    Swept(Scan(Marked(st), vs, tids))
  }

  function Run(st: State, samples: seq<seq<Visit>>, tids: bool): State {
    if samples == [] then st else Sample(Run(st, samples[..|samples| - 1], tids), samples[|samples| - 1], tids)
  }

  // ----- The PIDs given on the command line

  /** What reading a PID brings: whether its statistics could be read, and the TIDs listed. */
  datatype Outcome = Outcome(ok: bool, threads: seq<ThreadRead>)

  function LeaderPids(s: seq<Task>): seq<int> {
    if s == [] then [] else (if s[0].Leader() then [s[0].pid] else []) + LeaderPids(s[1..])
  }

  /** One visit of each PID, in order. */
  function Visits(pids: seq<int>, probe: int -> Outcome): seq<Visit> {
    seq(|pids|, i requires 0 <= i < |pids| => VisitOf(pids[i], probe))
  }

  lemma VisitsStep(pids: seq<int>, m: nat, probe: int -> Outcome)
    requires m < |pids|
    ensures var vs := Visits(pids[..m + 1], probe);
            vs[m] == VisitOf(pids[m], probe) && vs[..m] == Visits(pids[..m], probe)
  {
  }

  lemma FirstOfSuffix(s: seq<Task>, i: nat)
    requires i < |s|
    ensures LeaderPids(s[i..]) == (if s[i].Leader() then [s[i].pid] else []) + LeaderPids(s[i + 1..])
  {
    assert s[i..][1..] == s[i + 1..];
  }

  /** Lists that differ in flags only have the same leaders. */
  lemma {:induction false} SameLeaders(s: seq<Task>, t: seq<Task>, i: nat)
    requires |s| == |t| && i <= |s|
    requires forall j :: 0 <= j < |s| ==> s[j].owner == t[j].owner && s[j].pid == t[j].pid
    ensures LeaderPids(s[i..]) == LeaderPids(t[i..])
    decreases |s| - i
  {
    if i < |s| {
      SameLeaders(s, t, i + 1);
      FirstOfSuffix(s, i);
      FirstOfSuffix(t, i);
    }
  }

  lemma {:induction false} ThreadIsNoLeader(s: seq<Task>, k: nat, x: Task, i: nat)
    requires k <= |s| && !x.Leader() && i <= k
    ensures LeaderPids((s[..k] + [x] + s[k..])[i..]) == LeaderPids(s[i..])
    decreases k - i
  {
    var t := s[..k] + [x] + s[k..];
    FirstOfSuffix(t, i);
    if i == k {
      assert t[k + 1..] == s[k..];
    } else {
      FirstOfSuffix(s, i);
      ThreadIsNoLeader(s, k, x, i + 1);
    }
  }

  lemma AddThreadKeepsLeaders(st: State, pid: int, tgid: int, i: nat) returns (i': nat)
    requires i < |st.tasks| && tgid != 0
    ensures var t := Add(st, pid, tgid).0.tasks;
            i' < |t| && t[i'] == st.tasks[i] && LeaderPids(t[i'..]) == LeaderPids(st.tasks[i..])
  {
    var s, p := st.tasks, PlaceFor(st.tasks, pid, tgid);
    i' := i;
    if p.Here? && !Occupied(s, p, pid) {
      var x := Task(st.nextId, pid, p.owner, false, false);
      var t := s[..p.k] + [x] + s[p.k..];
      if p.k <= i {
        i' := i + 1;
        assert t[i'..] == s[i..];
      } else {
        ThreadIsNoLeader(s, p.k, x, i);
      }
    }
  }

  /** Where node `i` stands after a thread was looked up or added; the leaders from it on are the same. */
  lemma VisitThreadKeepsLeaders(st: State, tgid: int, r: ThreadRead, i: nat) returns (i': nat)
    requires i < |st.tasks| && tgid != 0
    ensures var t := VisitThread(st, tgid, r).tasks;
            i' < |t| && t[i'].id == st.tasks[i].id && LeaderPids(t[i'..]) == LeaderPids(st.tasks[i..])
  {
    i' := AddThreadKeepsLeaders(st, r.tid, tgid, i);
    var (st', f) := Add(st, r.tid, tgid);
    if f.Some? { SameLeaders(st'.tasks, SetExist(st'.tasks, f.value, r.ok), i'); }
  }

  lemma {:induction false} VisitThreadsKeepsLeaders(st: State, tgid: int, rs: seq<ThreadRead>, i: nat) returns (i': nat)
    requires i < |st.tasks| && tgid != 0
    ensures var t := VisitThreads(st, tgid, rs).tasks;
            i' < |t| && t[i'].id == st.tasks[i].id && LeaderPids(t[i'..]) == LeaderPids(st.tasks[i..])
  {
    i' := i;
    if rs != [] {
      var n := |rs| - 1;
      i' := VisitThreadsKeepsLeaders(st, tgid, rs[..n], i);
      i' := VisitThreadKeepsLeaders(VisitThreads(st, tgid, rs[..n]), tgid, rs[n], i');
    }
  }

  /** In a list with ascending leaders, a leader's PID leads back to its own node. */
  lemma LeaderIsFound(st: State, i: nat)
    requires LeadersAscend(st.tasks) && i < |st.tasks| && st.tasks[i].Leader() && st.tasks[i].pid != 0
    ensures Add(st, st.tasks[i].pid, 0) == (st, Some(st.tasks[i].id))
  {
    LeaderSlotIs(st.tasks, st.tasks[i].pid, i);
  }

  function VisitOf(pid: int, probe: int -> Outcome): Visit {
    Visit(pid, probe(pid).ok, probe(pid).threads)
  }

  /** The scan has visited the first `m` of `pids`, and its cursor is at position `i`. */
  ghost predicate HalfScanned(start: State, now: State, i: nat, pids: seq<int>, m: nat, probe: int -> Outcome,
                              tids: bool) {
    && m <= |pids| && i <= |now.tasks|
    && LeaderPids(now.tasks[i..]) == pids[m..]
    && now == Scan(start, Visits(pids[..m], probe), tids)
  }

  lemma StepOverThread(start: State, now: State, i: nat, pids: seq<int>, m: nat, probe: int -> Outcome, tids: bool)
    requires HalfScanned(start, now, i, pids, m, probe, tids) && i < |now.tasks| && !now.tasks[i].Leader()
    ensures HalfScanned(start, now, i + 1, pids, m, probe, tids)
  {
    FirstOfSuffix(now.tasks, i);
  }

  /** Reading leader `i` moves it to `i'`, and the scan goes on behind it. */
  lemma StepOverLeader(start: State, now: State, i: nat, next: State, i': nat, pids: seq<int>, m: nat,
                       probe: int -> Outcome, tids: bool)
    requires HalfScanned(start, now, i, pids, m, probe, tids) && i < |now.tasks| && now.tasks[i].Leader()
    requires next == VisitPid(now, VisitOf(now.tasks[i].pid, probe), tids)
    requires i' < |next.tasks| && next.tasks[i'].Leader() && LeaderPids(next.tasks[i'..]) == LeaderPids(now.tasks[i..])
    ensures m < |pids| && HalfScanned(start, next, i' + 1, pids, m + 1, probe, tids)
  {
    FirstOfSuffix(now.tasks, i);
    FirstOfSuffix(next.tasks, i');
    assert pids[m..][0] == now.tasks[i].pid && pids[m..][1..] == pids[m + 1..];
    VisitsStep(pids, m, probe);
  }

  lemma ScanStarts(s: seq<Task>, start: State, probe: int -> Outcome, tids: bool)
    requires start.tasks == MarkAll(s)
    ensures HalfScanned(start, start, 0, LeaderPids(s), 0, probe, tids)
  {
    SameLeaders(s, start.tasks, 0);
    assert s[0..] == s && start.tasks[0..] == start.tasks;
    var pids := LeaderPids(s);
    assert pids[0..] == pids && Visits(pids[..0], probe) == [];
  }

  lemma ScanDone(start: State, now: State, pids: seq<int>, m: nat, probe: int -> Outcome, tids: bool)
    requires HalfScanned(start, now, |now.tasks|, pids, m, probe, tids)
    ensures now == Scan(start, Visits(pids, probe), tids)
  {
    assert now.tasks[|now.tasks|..] == [];
    assert |pids[m..]| == 0;
    assert pids[..m] == pids;
  }
}
