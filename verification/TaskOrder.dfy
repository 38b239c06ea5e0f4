/** Exactly when a sample of pidstat, and a run of samples, keeps the task list a sequence of groups. */
module TaskOrder {
  import opened Wrappers
  import opened TaskModel
  import opened TaskSamples

  // ----- Flags and order

  lemma SetExistKeepsOrder(s: seq<Task>, id: nat, b: bool)
    requires WellFormed(s)
    ensures WellFormed(SetExist(s, id, b))
  {
    var t := SetExist(s, id, b);
    forall i | 0 <= i < |t| ensures Linked(t, i) { assert Linked(s, i); }
  }

  lemma MarkAllKeepsOrder(s: seq<Task>)
    requires WellFormed(s)
    ensures WellFormed(MarkAll(s))
  {
    var t := MarkAll(s);
    forall i | 0 <= i < |t| ensures Linked(t, i) { assert Linked(s, i); }
  }

  lemma FoundKeepsOrder(st: State, pid: int, tgid: int, ok: bool)
    requires ValidState(st) && NoAlias(st.tasks, pid, tgid)
    ensures ValidState(Found(Add(st, pid, tgid), ok))
  {
    AddKeepsOrderIff(st, pid, tgid);
    var (st', r) := Add(st, pid, tgid);
    if r.Some? { SetExistKeepsOrder(st'.tasks, r.value, ok); }
  }

  // ----- Threads that hang on a thread

  /** A tgid pointer refers to a thread. No later step of a scan mends this. */
  ghost predicate Tangled(s: seq<Task>) {
    exists i, h :: 0 <= i < |s| && 0 <= h < |s| && HangsOnThread(s[i], s[h])
  }

  predicate HangsOnThread(a: Task, b: Task) {
    a.owner == Some(b.id) && !b.Leader()
  }

  lemma OrderedIsNotTangled(s: seq<Task>)
    requires WellFormed(s)
    ensures !Tangled(s)
  {
    forall i, h | 0 <= i < |s| && 0 <= h < |s| && s[i].owner == Some(s[h].id) ensures s[h].Leader() {
      OwnerIsEarlierLeader(s, i);
    }
  }

  lemma FoundKeepsTangled(st: State, pid: int, tgid: int, ok: bool)
    requires Tangled(st.tasks)
    ensures Tangled(Found(Add(st, pid, tgid), ok).tasks)
  {
    var s := st.tasks;
    var (st', r) := Add(st, pid, tgid);
    var i, h :| 0 <= i < |s| && 0 <= h < |s| && HangsOnThread(s[i], s[h]);
    if st' != st {
      var k := AddedAt(st, pid, tgid);
      var i', h' := if i < k then i else i + 1, if h < k then h else h + 1;
      assert st'.tasks[i'] == s[i] && st'.tasks[h'] == s[h] && HangsOnThread(st'.tasks[i'], st'.tasks[h']);
    }
    assert Tangled(st'.tasks);
    if r.Some? { SetExistKeepsTangled(st'.tasks, r.value, ok); }
  }

  lemma SetExistKeepsTangled(s: seq<Task>, id: nat, ok: bool)
    requires Tangled(s)
    ensures Tangled(SetExist(s, id, ok))
  {
    var t := SetExist(s, id, ok);
    var i, h :| 0 <= i < |s| && 0 <= h < |s| && HangsOnThread(s[i], s[h]);
    assert HangsOnThread(t[i], t[h]);
  }

  lemma AliasTangles(st: State, pid: int, tgid: int)
    requires ValidState(st) && !NoAlias(st.tasks, pid, tgid)
    ensures Tangled(Add(st, pid, tgid).0.tasks)
  {
    FirstWithNumberStops(st.tasks, tgid, 0);
    var s, l := st.tasks, FirstWithNumber(st.tasks, tgid, 0);
    OrderedIsNotTangled(s);
    assert l + 1 < |s| ==> !HangsOnThread(s[l + 1], s[l]);
    var t := Inserted(st, l + 1, pid, Some(s[l].id)).tasks;
    assert t[l] == s[l] && HangsOnThread(t[l + 1], t[l]);
  }

  // ----- Visits

  /** The first node with this number is a leader. */
  predicate FirstIsLeader(s: seq<Task>, n: int) {
    var l := FirstWithNumber(s, n, 0);
    l < |s| && s[l].Leader()
  }

  predicate AllZero(rs: seq<ThreadRead>) {
    forall k :: 0 <= k < |rs| ==> rs[k].tid == 0
  }

  predicate ReadsThreads(v: Visit, tids: bool) {
    v.pid != 0 && v.ok && tids && !AllZero(v.threads)
  }

  /**
    When the leader has been found or added, no thread with its number stands in front of it, unless
    no thread is read.
   */
  predicate Clear(st: State, v: Visit, tids: bool) {
    ReadsThreads(v, tids) ==> FirstIsLeader(Add(st, v.pid, 0).0.tasks, v.pid)
  }

  lemma FirstStays(s: seq<Task>, t: seq<Task>, n: int)
    requires |s| == |t| && forall i :: 0 <= i < |s| ==> s[i].pid == t[i].pid && s[i].owner == t[i].owner
    ensures FirstIsLeader(s, n) <==> FirstIsLeader(t, n)
  {
    FirstWithNumberStops(s, n, 0);
    FirstWithNumberStops(t, n, 0);
  }

  /** Threads are inserted behind their leader. */
  lemma VisitThreadKeepsFirst(st: State, tgid: int, r: ThreadRead)
    requires FirstIsLeader(st.tasks, tgid) && tgid != 0
    ensures FirstIsLeader(VisitThread(st, tgid, r).tasks, tgid)
  {
    var s := st.tasks;
    var l := FirstWithNumber(s, tgid, 0);
    var (st', f) := Add(st, r.tid, tgid);
    FirstWithNumberStops(s, tgid, 0);
    if st' != st {
      var k := AddedAt(st, r.tid, tgid);
      assert forall i :: 0 <= i <= l ==> st'.tasks[i] == s[i];
      FirstWithNumberIs(st'.tasks, tgid, l);
    }
    if f.Some? { FirstStays(st'.tasks, SetExist(st'.tasks, f.value, r.ok), tgid); }
  }

  lemma {:induction false} VisitThreadsKeepsOrder(st: State, tgid: int, rs: seq<ThreadRead>)
    requires ValidState(st) && FirstIsLeader(st.tasks, tgid) && tgid != 0
    ensures ValidState(VisitThreads(st, tgid, rs)) && FirstIsLeader(VisitThreads(st, tgid, rs).tasks, tgid)
  {
    if rs != [] {
      var n := |rs| - 1;
      var st' := VisitThreads(st, tgid, rs[..n]);
      VisitThreadsKeepsOrder(st, tgid, rs[..n]);
      VisitThreadKeepsFirst(st', tgid, rs[n]);
      FoundKeepsOrder(st', rs[n].tid, tgid, rs[n].ok);
    }
  }

  lemma {:induction false} ZerosChangeNothing(st: State, tgid: int, rs: seq<ThreadRead>)
    requires AllZero(rs)
    ensures VisitThreads(st, tgid, rs) == st
  {
    if rs != [] {
      assert rs[|rs| - 1].tid == 0;
      ZerosChangeNothing(st, tgid, rs[..|rs| - 1]);
    }
  }

  /** If a thread stands first, the first thread that is read tangles the list, and it stays so. */
  lemma {:induction false} VisitThreadsTangles(st: State, tgid: int, rs: seq<ThreadRead>)
    requires ValidState(st) && tgid != 0 && !AllZero(rs)
    requires FirstWithNumber(st.tasks, tgid, 0) < |st.tasks| && !FirstIsLeader(st.tasks, tgid)
    ensures Tangled(VisitThreads(st, tgid, rs).tasks)
  {
    var n := |rs| - 1;
    var st' := VisitThreads(st, tgid, rs[..n]);
    if AllZero(rs[..n]) {
      ZerosChangeNothing(st, tgid, rs[..n]);
      assert rs[n].tid != 0;
      AliasTangles(st, rs[n].tid, tgid);
      var (st'', r) := Add(st, rs[n].tid, tgid);
      if r.Some? { SetExistKeepsTangled(st''.tasks, r.value, rs[n].ok); }
    } else {
      VisitThreadsTangles(st, tgid, rs[..n]);
      FoundKeepsTangled(st', rs[n].tid, tgid, rs[n].ok);
    }
  }

  lemma LeaderIsPresent(st: State, pid: int, ok: bool)
    requires ValidState(st) && pid != 0
    ensures var s := Found(Add(st, pid, 0), ok).tasks;
            && FirstWithNumber(s, pid, 0) < |s|
            && (FirstIsLeader(s, pid) <==> FirstIsLeader(Add(st, pid, 0).0.tasks, pid))
  {
    AddedNodeIsMeant(st, pid, 0);
    var (st', r) := Add(st, pid, 0);
    var t := st'.tasks;
    var k :| 0 <= k < |t| && t[k].id == r.value && Means(t, t[k], pid, 0);
    var s := SetExist(t, r.value, ok);
    assert s[k].pid == pid;
    FirstWithNumberStops(s, pid, 0);
    FirstStays(t, s, pid);
  }

  /** A visit keeps the list in order if and only if it is clear. */
  lemma VisitKeepsOrderIff(st: State, v: Visit, tids: bool)
    requires ValidState(st)
    ensures ValidState(VisitPid(st, v, tids)) <==> Clear(st, v, tids)
  {
    var st' := Found(Add(st, v.pid, 0), v.ok);
    FoundKeepsOrder(st, v.pid, 0, v.ok);
    if v.pid != 0 && v.ok && tids {
      LeaderIsPresent(st, v.pid, v.ok);
      if AllZero(v.threads) {
        ZerosChangeNothing(st', v.pid, v.threads);
      } else if FirstIsLeader(st'.tasks, v.pid) {
        VisitThreadsKeepsOrder(st', v.pid, v.threads);
      } else {
        VisitThreadsTangles(st', v.pid, v.threads);
        assert Tangled(VisitPid(st, v, tids).tasks);
        if WellFormed(VisitPid(st, v, tids).tasks) { OrderedIsNotTangled(VisitPid(st, v, tids).tasks); }
      }
    }
  }

  /** Each call of add_list_pid for a thread finds a leader under the number of the PID. */
  ghost predicate EachCallFindsLeader(st: State, tgid: int, rs: seq<ThreadRead>) {
    forall k :: 0 <= k < |rs| ==> NoAlias(VisitThreads(st, tgid, rs[..k]).tasks, rs[k].tid, tgid)
  }

  lemma {:induction false} FirstNonZero(rs: seq<ThreadRead>) returns (k: nat)
    requires !AllZero(rs)
    ensures k < |rs| && rs[k].tid != 0 && AllZero(rs[..k])
  {
    if AllZero(rs[..|rs| - 1]) {
      k := |rs| - 1;
      assert rs[k].tid != 0;
    } else {
      k := FirstNonZero(rs[..|rs| - 1]);
      assert rs[..|rs| - 1][..k] == rs[..k];
    }
  }

  /** One look in front of the threads tells this of all the calls. */
  lemma ClearIsNoAliasAtEachCall(st: State, tgid: int, rs: seq<ThreadRead>)
    requires ValidState(st) && tgid != 0 && FirstWithNumber(st.tasks, tgid, 0) < |st.tasks|
    ensures EachCallFindsLeader(st, tgid, rs) <==> AllZero(rs) || FirstIsLeader(st.tasks, tgid)
  {
    if FirstIsLeader(st.tasks, tgid) {
      forall k | 0 <= k < |rs| ensures NoAlias(VisitThreads(st, tgid, rs[..k]).tasks, rs[k].tid, tgid) {
        VisitThreadsKeepsOrder(st, tgid, rs[..k]);
      }
    } else if !AllZero(rs) {
      var k := FirstNonZero(rs);
      ZerosChangeNothing(st, tgid, rs[..k]);
      assert !NoAlias(VisitThreads(st, tgid, rs[..k]).tasks, rs[k].tid, tgid);
    }
  }

  // ----- What a sample last heard of each task

  /** A leader, or a thread of a leader, by its numbers. */
  datatype Key = Lead(pid: int) | Thread(tgid: int, tid: int)

  type Marks = Key -> bool

  function Then(up: Marks, key: Key, ok: bool): Marks {
    (k: Key) => if k == key then ok else up(k)
  }

  function AfterThreads(up: Marks, tgid: int, rs: seq<ThreadRead>): Marks {
    if rs == [] then up
    else
      var r := rs[|rs| - 1];
      var before := AfterThreads(up, tgid, rs[..|rs| - 1]);
      if r.tid == 0 then before else Then(before, Thread(tgid, r.tid), r.ok)
  }

  function AfterVisit(up: Marks, v: Visit, tids: bool): Marks {
    if v.pid == 0 then up
    else
      var lead := Then(up, Lead(v.pid), v.ok);
      if v.ok && tids then AfterThreads(lead, v.pid, v.threads) else lead
  }

  /** The tasks whose last read in the sample brought statistics. This depends on the visits alone. */
  function LastHeard(vs: seq<Visit>, tids: bool): Marks {
    if vs == [] then (k: Key) => false else AfterVisit(LastHeard(vs[..|vs| - 1], tids), vs[|vs| - 1], tids)
  }

  /** Node i is the task of this key. */
  ghost predicate Names(s: seq<Task>, i: nat, key: Key)
    requires i < |s|
  {
    match key
    case Lead(p) => IsLeaderNamed(s[i], p)
    case Thread(g, t) =>
      s[i].pid == t && exists h :: 0 <= h < |s| && IsLeaderNamed(s[h], g) && s[i].owner == Some(s[h].id)
  }

  /** The exist flags say what was last heard, and every task that was heard of is in the list. */
  ghost predicate Told(s: seq<Task>, up: Marks) {
    && (forall i, key {:trigger Names(s, i, key)} :: 0 <= i < |s| && Names(s, i, key) ==> (s[i].exist <==> up(key)))
    && (forall key :: up(key) ==> HasNode(s, key))
  }

  ghost predicate HasNode(s: seq<Task>, key: Key) {
    exists i :: 0 <= i < |s| && Names(s, i, key)
  }

  function KeyFor(pid: int, tgid: int): Key {
    if tgid == 0 then Lead(pid) else Thread(tgid, pid)
  }

  lemma OneKey(s: seq<Task>, i: nat, a: Key, b: Key)
    requires WellFormed(s) && i < |s| && Names(s, i, a) && Names(s, i, b)
    ensures a == b
  {
  }

  lemma OneNode(s: seq<Task>, i: nat, j: nat, key: Key)
    requires WellFormed(s) && i < |s| && j < |s| && Names(s, i, key) && Names(s, j, key)
    ensures i == j
  {
    if key.Thread? {
      var h :| 0 <= h < |s| && IsLeaderNamed(s[h], key.tgid) && s[i].owner == Some(s[h].id);
      var g :| 0 <= g < |s| && IsLeaderNamed(s[g], key.tgid) && s[j].owner == Some(s[g].id);
      assert g == h;
    }
    if i < j { KeysAreUnique(s, i, j); }
    if j < i { KeysAreUnique(s, j, i); }
  }

  /** Inserting a node changes no other node's leader. */
  lemma OwnersUnchanged(s: seq<Task>, t: seq<Task>, k: nat, i: nat, h: nat)
    requires WellFormed(s) && WellFormed(t) && k < |t| && t[..k] + t[k + 1..] == s
    requires i < |t| && i != k && h < |t| && t[i].owner == Some(t[h].id)
    ensures h != k && t[i] == s[Before(i, k)] && t[h] == s[Before(h, k)]
  {
    assert t[i] == s[Before(i, k)];
    OwnerIsEarlierLeader(s, Before(i, k));
    var g :| 0 <= g < Before(i, k) && s[g].Leader() && t[i].owner == Some(s[g].id);
    assert s[g] == t[if g < k then g else g + 1];
  }

  lemma NamesBefore(s: seq<Task>, t: seq<Task>, k: nat, i: nat, key: Key)
    requires WellFormed(s) && WellFormed(t) && k < |t| && t[..k] + t[k + 1..] == s && i < |t| && i != k
    requires Names(t, i, key)
    ensures t[i] == s[Before(i, k)] && Names(s, Before(i, k), key)
  {
    assert t[i] == s[Before(i, k)];
    if key.Thread? {
      var h :| 0 <= h < |t| && IsLeaderNamed(t[h], key.tgid) && t[i].owner == Some(t[h].id);
      OwnersUnchanged(s, t, k, i, h);
      assert IsLeaderNamed(s[Before(h, k)], key.tgid);
    }
  }

  lemma HasNodeStill(s: seq<Task>, t: seq<Task>, k: nat, key: Key)
    requires k < |t| && t[..k] + t[k + 1..] == s && HasNode(s, key)
    ensures HasNode(t, key)
  {
    var i :| 0 <= i < |s| && Names(s, i, key);
    var i' := if i < k then i else i + 1;
    assert t[i'] == s[i];
    if key.Thread? {
      var h :| 0 <= h < |s| && IsLeaderNamed(s[h], key.tgid) && s[i].owner == Some(s[h].id);
      assert t[if h < k then h else h + 1] == s[h];
    }
    assert Names(t, i', key);
  }

  /** A node that was not in the list had not been heard of. */
  lemma AddKeepsTold(st: State, pid: int, tgid: int, up: Marks)
    requires ValidState(st) && NoAlias(st.tasks, pid, tgid) && Told(st.tasks, up)
    ensures Told(Add(st, pid, tgid).0.tasks, up)
  {
    AddKeepsOrderIff(st, pid, tgid);
    var (st', r) := Add(st, pid, tgid);
    var s, t := st.tasks, st'.tasks;
    if st' != st {
      var k := InsertedNodeIsMeant(st, pid, tgid);
      var at := AddedAt(st, pid, tgid);
      NewKeyIsUnheard(st, pid, tgid, up);
      forall i, key | 0 <= i < |t| && Names(t, i, key) ensures t[i].exist <==> up(key) {
        if i == k {
          OneKey(t, k, key, KeyFor(pid, tgid));
        } else {
          NamesBefore(s, t, k, i, key);
        }
      }
      forall key | up(key) ensures HasNode(t, key) { HasNodeStill(s, t, k, key); }
    }
  }

  lemma NewKeyIsUnheard(st: State, pid: int, tgid: int, up: Marks)
    requires ValidState(st) && NoAlias(st.tasks, pid, tgid) && Told(st.tasks, up) && Add(st, pid, tgid).0 != st
    ensures !up(KeyFor(pid, tgid))
  {
    if up(KeyFor(pid, tgid)) {
      var i :| 0 <= i < |st.tasks| && Names(st.tasks, i, KeyFor(pid, tgid));
      MeantNodeIsFound(st, pid, tgid, i);
    }
  }

  lemma NamesAfterSet(t: seq<Task>, id: nat, ok: bool, i: nat, key: Key)
    requires i < |t|
    ensures Names(SetExist(t, id, ok), i, key) <==> Names(t, i, key)
  {
    var u := SetExist(t, id, ok);
    assert forall h :: 0 <= h < |t| ==> u[h].pid == t[h].pid && u[h].owner == t[h].owner && u[h].id == t[h].id;
    if key.Thread? {
      forall h | 0 <= h < |t| ensures IsLeaderNamed(u[h], key.tgid) <==> IsLeaderNamed(t[h], key.tgid) { }
    }
  }

  lemma SetKeepsTold(t: seq<Task>, k: nat, key: Key, ok: bool, up: Marks)
    requires WellFormed(t) && Told(t, up) && k < |t| && Names(t, k, key)
    ensures Told(SetExist(t, t[k].id, ok), Then(up, key, ok))
  {
    var u := SetExist(t, t[k].id, ok);
    forall i, other | 0 <= i < |u| && Names(u, i, other) ensures u[i].exist <==> Then(up, key, ok)(other) {
      NamesAfterSet(t, t[k].id, ok, i, other);
      if i == k {
        OneKey(t, k, key, other);
      } else if other == key {
        OneNode(t, i, k, key);
      }
    }
    forall other | Then(up, key, ok)(other) ensures HasNode(u, other) {
      var i :| 0 <= i < |t| && Names(t, i, other);
      NamesAfterSet(t, t[k].id, ok, i, other);
    }
  }

  lemma FoundKeepsTold(st: State, pid: int, tgid: int, ok: bool, up: Marks)
    requires ValidState(st) && NoAlias(st.tasks, pid, tgid) && Told(st.tasks, up) && Add(st, pid, tgid).1.Some?
    ensures Told(Found(Add(st, pid, tgid), ok).tasks, Then(up, KeyFor(pid, tgid), ok))
  {
    AddKeepsOrderIff(st, pid, tgid);
    AddKeepsTold(st, pid, tgid, up);
    AddedNodeIsMeant(st, pid, tgid);
    var (st', r) := Add(st, pid, tgid);
    var t := st'.tasks;
    var k :| 0 <= k < |t| && t[k].id == r.value && Means(t, t[k], pid, tgid);
    SetKeepsTold(t, k, KeyFor(pid, tgid), ok, up);
  }

  lemma {:induction false} VisitThreadsKeepsTold(st: State, tgid: int, rs: seq<ThreadRead>, up: Marks)
    requires ValidState(st) && FirstIsLeader(st.tasks, tgid) && tgid != 0 && Told(st.tasks, up)
    ensures Told(VisitThreads(st, tgid, rs).tasks, AfterThreads(up, tgid, rs))
  {
    if rs != [] {
      var n := |rs| - 1;
      var st' := VisitThreads(st, tgid, rs[..n]);
      VisitThreadsKeepsOrder(st, tgid, rs[..n]);
      VisitThreadsKeepsTold(st, tgid, rs[..n], up);
      if rs[n].tid != 0 {
        FoundKeepsTold(st', rs[n].tid, tgid, rs[n].ok, AfterThreads(up, tgid, rs[..n]));
      }
    }
  }

  lemma VisitKeepsTold(st: State, v: Visit, tids: bool, up: Marks)
    requires ValidState(st) && Clear(st, v, tids) && Told(st.tasks, up)
    ensures Told(VisitPid(st, v, tids).tasks, AfterVisit(up, v, tids))
  {
    if v.pid != 0 {
      var st' := Found(Add(st, v.pid, 0), v.ok);
      FoundKeepsOrder(st, v.pid, 0, v.ok);
      FoundKeepsTold(st, v.pid, 0, v.ok, up);
      if v.ok && tids {
        LeaderIsPresent(st, v.pid, v.ok);
        if AllZero(v.threads) {
          ZerosChangeNothing(st', v.pid, v.threads);
          ZerosTellNothing(Then(up, Lead(v.pid), v.ok), v.pid, v.threads);
        } else {
          VisitThreadsKeepsTold(st', v.pid, v.threads, Then(up, Lead(v.pid), v.ok));
        }
      }
    }
  }

  lemma {:induction false} ZerosTellNothing(up: Marks, tgid: int, rs: seq<ThreadRead>)
    requires AllZero(rs)
    ensures AfterThreads(up, tgid, rs) == up
  {
    if rs != [] {
      assert rs[|rs| - 1].tid == 0;
      ZerosTellNothing(up, tgid, rs[..|rs| - 1]);
    }
  }

  // ----- Scans

  ghost predicate ScanClear(st: State, vs: seq<Visit>, tids: bool) {
    forall j :: 0 <= j < |vs| ==> Clear(Scan(st, vs[..j], tids), vs[j], tids)
  }

  ghost predicate ScanOrdered(st: State, vs: seq<Visit>, tids: bool) {
    forall j :: 0 <= j <= |vs| ==> ValidState(Scan(st, vs[..j], tids))
  }

  lemma ScanStep(st: State, vs: seq<Visit>, tids: bool, j: nat)
    requires j < |vs|
    ensures Scan(st, vs[..j + 1], tids) == VisitPid(Scan(st, vs[..j], tids), vs[j], tids)
  {
    assert vs[..j + 1][..j] == vs[..j];
  }

  lemma {:induction false} ClearScanIsOrdered(st: State, vs: seq<Visit>, tids: bool, j: nat)
    requires ValidState(st) && ScanClear(st, vs, tids) && j <= |vs|
    ensures ValidState(Scan(st, vs[..j], tids))
  {
    if j > 0 {
      ClearScanIsOrdered(st, vs, tids, j - 1);
      ScanStep(st, vs, tids, j - 1);
      VisitKeepsOrderIff(Scan(st, vs[..j - 1], tids), vs[j - 1], tids);
    }
  }

  /** After every visit the list is in order if and only if every visit is clear. */
  lemma ScanKeepsOrderIff(st: State, vs: seq<Visit>, tids: bool)
    requires ValidState(st)
    ensures ScanOrdered(st, vs, tids) <==> ScanClear(st, vs, tids)
  {
    if ScanClear(st, vs, tids) {
      forall j | 0 <= j <= |vs| ensures ValidState(Scan(st, vs[..j], tids)) { ClearScanIsOrdered(st, vs, tids, j); }
    }
    if ScanOrdered(st, vs, tids) {
      forall j | 0 <= j < |vs| ensures Clear(Scan(st, vs[..j], tids), vs[j], tids) {
        ScanStep(st, vs, tids, j);
        assert ValidState(Scan(st, vs[..j], tids)) && ValidState(Scan(st, vs[..j + 1], tids));
        VisitKeepsOrderIff(Scan(st, vs[..j], tids), vs[j], tids);
      }
    }
  }

  lemma {:induction false} ScanTold(st: State, vs: seq<Visit>, tids: bool, j: nat)
    requires ValidState(st) && ScanClear(st, vs, tids) && j <= |vs|
    requires forall i :: 0 <= i < |st.tasks| ==> !st.tasks[i].exist
    ensures Told(Scan(st, vs[..j], tids).tasks, LastHeard(vs[..j], tids))
  {
    if j > 0 {
      ScanTold(st, vs, tids, j - 1);
      ClearScanIsOrdered(st, vs, tids, j - 1);
      ScanStep(st, vs, tids, j - 1);
      assert vs[..j][..j - 1] == vs[..j - 1];
      VisitKeepsTold(Scan(st, vs[..j - 1], tids), vs[j - 1], tids, LastHeard(vs[..j - 1], tids));
    }
  }

  /** No thread was last read successfully whose leader was last found terminated. */
  ghost predicate NoLeftover(vs: seq<Visit>, tids: bool) {
    forall g, t :: LastHeard(vs, tids)(Thread(g, t)) ==> LastHeard(vs, tids)(Lead(g))
  }

  lemma NoOrphanIff(s: seq<Task>, up: Marks)
    requires WellFormed(s) && Told(s, up)
    ensures NoOrphan(s) <==> forall g, t :: up(Thread(g, t)) ==> up(Lead(g))
  {
    if forall g, t :: up(Thread(g, t)) ==> up(Lead(g)) {
      forall i, h | 0 <= h < |s| && 0 <= i < |s| && s[i].exist && s[i].owner == Some(s[h].id) ensures s[h].exist {
        OwnerIsEarlierLeader(s, i);
        assert IsLeaderNamed(s[h], s[h].pid);
        assert Names(s, i, Thread(s[h].pid, s[i].pid)) && Names(s, h, Lead(s[h].pid));
      }
    }
    if NoOrphan(s) {
      forall g, t | up(Thread(g, t)) ensures up(Lead(g)) {
        assert HasNode(s, Thread(g, t));
        var i :| 0 <= i < |s| && Names(s, i, Thread(g, t));
        var h :| 0 <= h < |s| && IsLeaderNamed(s[h], g) && s[i].owner == Some(s[h].id);
        assert Names(s, h, Lead(g));
      }
    }
  }

  // ----- Samples and runs

  /** The state in the middle of a sample, after the first `j` visits. */
  function Midway(st: State, vs: seq<Visit>, j: nat, tids: bool): State
    requires j <= |vs|
  {
    Scan(Marked(st), vs[..j], tids)
  }

  /** After each visit and after the sweep the list is a sequence of groups. */
  ghost predicate SampleOrdered(st: State, vs: seq<Visit>, tids: bool) {
    (forall j :: 0 <= j <= |vs| ==> ValidState(Midway(st, vs, j, tids))) && ValidState(Sample(st, vs, tids))
  }

  lemma MarkedIsValid(st: State)
    requires ValidState(st)
    ensures ValidState(Marked(st))
  {
    MarkAllKeepsOrder(st.tasks);
  }

  lemma SweptIsValidIff(st: State)
    requires ValidState(st)
    ensures ValidState(Swept(st)) <==> NoOrphan(st.tasks)
    ensures AllExist(Swept(st).tasks)
  {
    var t := Sweep(st.tasks);
    SweepKeepsOrderIff(st.tasks);
    SweepMembers(st.tasks);
    forall i | 0 <= i < |t| ensures t[i].exist && t[i].id < st.nextId { assert t[i] in st.tasks; }
  }

  /**
    A sample keeps the list a sequence of groups all along if and only if each of its visits is
    clear, and no thread was last read successfully whose leader was last found terminated.
   */
  lemma SampleKeepsOrderIff(st: State, vs: seq<Visit>, tids: bool)
    requires ValidState(st)
    ensures SampleOrdered(st, vs, tids) <==> ScanClear(Marked(st), vs, tids) && NoLeftover(vs, tids)
    ensures SampleOrdered(st, vs, tids) ==> AllExist(Sample(st, vs, tids).tasks)
  {
    var m := Marked(st);
    MarkedIsValid(st);
    ScanKeepsOrderIff(m, vs, tids);
    assert vs[..|vs|] == vs;
    assert ScanOrdered(m, vs, tids) <==> (forall j :: 0 <= j <= |vs| ==> ValidState(Midway(st, vs, j, tids))) by {
      assert forall j :: 0 <= j <= |vs| ==> Midway(st, vs, j, tids) == Scan(m, vs[..j], tids);
    }
    if ScanClear(m, vs, tids) {
      ScanTold(m, vs, tids, |vs|);
      ClearScanIsOrdered(m, vs, tids, |vs|);
      NoOrphanIff(Scan(m, vs, tids).tasks, LastHeard(vs, tids));
      SweptIsValidIff(Scan(m, vs, tids));
    }
  }

  /** After each visit and each sweep of a run the list is a sequence of groups. */
  ghost predicate RunOrdered(st: State, samples: seq<seq<Visit>>, tids: bool) {
    forall k :: 0 <= k < |samples| ==> SampleOrdered(Run(st, samples[..k], tids), samples[k], tids)
  }

  ghost predicate RunClear(st: State, samples: seq<seq<Visit>>, tids: bool) {
    forall k :: 0 <= k < |samples| ==> SampleClear(Run(st, samples[..k], tids), samples[k], tids)
  }

  ghost predicate SampleClear(st: State, vs: seq<Visit>, tids: bool) {
    ScanClear(Marked(st), vs, tids) && NoLeftover(vs, tids)
  }

  lemma RunStep(st: State, samples: seq<seq<Visit>>, tids: bool, k: nat)
    requires k < |samples|
    ensures Run(st, samples[..k + 1], tids) == Sample(Run(st, samples[..k], tids), samples[k], tids)
  {
    assert samples[..k + 1][..k] == samples[..k];
  }

  lemma OrderedSampleEnds(st: State, samples: seq<seq<Visit>>, tids: bool, k: nat)
    requires 0 < k <= |samples| && SampleOrdered(Run(st, samples[..k - 1], tids), samples[k - 1], tids)
    ensures ValidState(Run(st, samples[..k], tids))
  {
    RunStep(st, samples, tids, k - 1);
  }

  lemma {:induction false} ClearSamplesAreOrdered(st: State, samples: seq<seq<Visit>>, tids: bool, k: nat)
    requires ValidState(st) && RunClear(st, samples, tids) && k <= |samples|
    ensures ValidState(Run(st, samples[..k], tids))
    ensures k < |samples| ==> SampleOrdered(Run(st, samples[..k], tids), samples[k], tids)
  {
    if k > 0 {
      ClearSamplesAreOrdered(st, samples, tids, k - 1);
      OrderedSampleEnds(st, samples, tids, k);
    }
    if k < |samples| { SampleKeepsOrderIff(Run(st, samples[..k], tids), samples[k], tids); }
  }

  lemma OrderedSampleIsClear(st: State, samples: seq<seq<Visit>>, tids: bool, k: nat)
    requires ValidState(st) && RunOrdered(st, samples, tids) && k < |samples|
    ensures SampleClear(Run(st, samples[..k], tids), samples[k], tids)
  {
    if k > 0 {
      assert SampleOrdered(Run(st, samples[..k - 1], tids), samples[k - 1], tids);
      OrderedSampleEnds(st, samples, tids, k);
    }
    SampleKeepsOrderIff(Run(st, samples[..k], tids), samples[k], tids);
  }

  /** A run keeps the list in order all along if and only if each sample is clear where it starts. */
  lemma RunKeepsOrderIff(st: State, samples: seq<seq<Visit>>, tids: bool)
    requires ValidState(st)
    ensures RunOrdered(st, samples, tids) <==> RunClear(st, samples, tids)
  {
    if RunClear(st, samples, tids) {
      forall k | 0 <= k < |samples| ensures SampleOrdered(Run(st, samples[..k], tids), samples[k], tids) {
        ClearSamplesAreOrdered(st, samples, tids, k);
      }
    }
    if RunOrdered(st, samples, tids) {
      forall k | 0 <= k < |samples| ensures SampleClear(Run(st, samples[..k], tids), samples[k], tids) {
        OrderedSampleIsClear(st, samples, tids, k);
      }
    }
  }

  /** A run in order leaves a list in order, of tasks that exist. */
  lemma OrderedRunEnds(st: State, samples: seq<seq<Visit>>, tids: bool)
    requires ValidState(st) && RunOrdered(st, samples, tids) && samples != []
    ensures ValidState(Run(st, samples, tids)) && AllExist(Run(st, samples, tids).tasks)
  {
    var n := |samples| - 1;
    OrderedSampleIsClear(st, samples, tids, n);
    assert samples[..n + 1] == samples && SampleOrdered(Run(st, samples[..n], tids), samples[n], tids);
    OrderedSampleEnds(st, samples, tids, n + 1);
    RunStep(st, samples, tids, n);
    SweepMembers(Scan(Marked(Run(st, samples[..n], tids)), samples[n], tids).tasks);
    forall i | 0 <= i < |Run(st, samples, tids).tasks| ensures Run(st, samples, tids).tasks[i].exist {
      assert Run(st, samples, tids).tasks[i] in Run(st, samples, tids).tasks;
    }
  }
}
