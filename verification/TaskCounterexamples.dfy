/** Inputs for which pidstat does not keep its task list a sequence of groups. */
module TaskCounterexamples {
  import opened Wrappers
  import opened TaskModel
  import opened TaskSamples
  import opened TaskGroups

  /**
    PID 7 has a thread 8, whose number is a leader's in the same list: a thread of leader 8 is put
    behind the other 8.
   */
  lemma AliasedLeader()
    ensures var st := State([Task(1, 7, None, true, false), Task(2, 8, Some(1), false, false),
                             Task(3, 8, None, true, false)], 4);
            ValidState(st) && !NoAlias(st.tasks, 9, 8) && !WellFormed(Add(st, 9, 8).0.tasks)
  {
    var st := State([Task(1, 7, None, true, false), Task(2, 8, Some(1), false, false), Task(3, 8, None, true, false)],
                    4);
    assert FirstWithNumber(st.tasks, 8, 0) == FirstWithNumber(st.tasks, 8, 1) == 1;
    assert Linked(st.tasks, 0) && Linked(st.tasks, 1) && Linked(st.tasks, 2);
    AddKeepsOrderIff(st, 9, 8);
  }

  /**
    A number that is reused between two samples: 8 was a thread of PID 7, and is now a process
    with a thread 9. The list that the sample starts from is in order and all its tasks exist.
    Thread 9 is put behind the old thread 8, which the sweep frees: its tgid pointer dangles.
   */
  lemma ReusedNumberLeavesDanglingPointer()
    ensures var st := State([Task(1, 7, None, true, false), Task(2, 8, Some(1), true, false)], 3);
            var vs := [Visit(7, true, []), Visit(8, true, [ThreadRead(9, true)])];
            ValidState(st) && AllExist(st.tasks) && NoLateFailure(vs) && !WellFormed(Sample(st, vs, true).tasks)
  {
    var st := State([Task(1, 7, None, true, false), Task(2, 8, Some(1), true, false)], 3);
    assert Linked(st.tasks, 0) && Linked(st.tasks, 1);
    SampleOfReusedNumber(st, [Visit(7, true, []), Visit(8, true, [ThreadRead(9, true)])]);
  }

  lemma SampleOfReusedNumber(st: State, vs: seq<Visit>)
    requires st == State([Task(1, 7, None, true, false), Task(2, 8, Some(1), true, false)], 3)
    requires vs == [Visit(7, true, []), Visit(8, true, [ThreadRead(9, true)])]
    ensures !WellFormed(Sample(st, vs, true).tasks)
  {
    var a, b := Task(1, 7, None, true, false), Task(2, 8, Some(1), false, false);
    var c, d := Task(4, 9, Some(2), true, false), Task(3, 8, None, true, false);
    ScanOfReusedNumber(st, vs);
    SweepOfFour(a, b, c, d);
    assert !Linked([a, c, d], 1);
  }

  lemma ScanOfReusedNumber(st: State, vs: seq<Visit>)
    requires st == State([Task(1, 7, None, true, false), Task(2, 8, Some(1), true, false)], 3)
    requires vs == [Visit(7, true, []), Visit(8, true, [ThreadRead(9, true)])]
    ensures Scan(Marked(st), vs, true).tasks
            == [Task(1, 7, None, true, false), Task(2, 8, Some(1), false, false), Task(4, 9, Some(2), true, false),
                Task(3, 8, None, true, false)]
  {
    var a, b := Task(1, 7, None, true, false), Task(2, 8, Some(1), false, false);
    assert Marked(st) == State([a.(exist := false), b], 3);
    VisitOfSevenAgain(Marked(st), vs[0]);
    VisitOfEight(State([a, b], 3), vs[1]);
    assert vs[..1] == [vs[0]] && vs[..1][..0] == [];
    assert Scan(Marked(st), vs[..1], true) == State([a, b], 3);
  }

  lemma SweepOfFour(a: Task, b: Task, c: Task, d: Task)
    requires a.exist && !b.exist && c.exist && d.exist
    ensures Sweep([a, b, c, d]) == [a, c, d]
  {
    assert [a][..0] == [] && [a, b][..1] == [a] && [a, b, c][..2] == [a, b] && [a, b, c, d][..3] == [a, b, c];
    assert Sweep([a]) == [a] && Sweep([a, b]) == [a] && Sweep([a, b, c]) == [a, c];
  }

  lemma VisitOfSevenAgain(st: State, v: Visit)
    requires st == State([Task(1, 7, None, false, false), Task(2, 8, Some(1), false, false)], 3)
    requires v == Visit(7, true, [])
    ensures VisitPid(st, v, true) == State([Task(1, 7, None, true, false), Task(2, 8, Some(1), false, false)], 3)
  {
    assert LeaderSlot(st.tasks, 7, 0) == 0 && Add(st, 7, 0) == (st, Some(1));
    assert SetExist(st.tasks, 1, true) == [Task(1, 7, None, true, false), Task(2, 8, Some(1), false, false)];
  }

  lemma VisitOfEight(st: State, v: Visit)
    requires st == State([Task(1, 7, None, true, false), Task(2, 8, Some(1), false, false)], 3)
    requires v == Visit(8, true, [ThreadRead(9, true)])
    ensures VisitPid(st, v, true).tasks
            == [Task(1, 7, None, true, false), Task(2, 8, Some(1), false, false), Task(4, 9, Some(2), true, false),
                Task(3, 8, None, true, false)]
  {
    var a, b := Task(1, 7, None, true, false), Task(2, 8, Some(1), false, false);
    var c, d := Task(4, 9, Some(2), true, false), Task(3, 8, None, true, false);
    assert LeaderSlot([a, b], 8, 0) == LeaderSlot([a, b], 8, 1) == LeaderSlot([a, b], 8, 2) == 2;
    assert Inserted(st, 2, 8, None).tasks == [a, b, d.(exist := false)];
    assert SetExist([a, b, d.(exist := false)], 3, true) == [a, b, d];
    var st' := State([a, b, d], 4);
    assert FirstWithNumber([a, b, d], 8, 0) == FirstWithNumber([a, b, d], 8, 1) == 1;
    assert ThreadSlot([a, b, d], 2, 9, 2) == 2;
    assert Inserted(st', 2, 9, Some(2)).tasks == [a, b, c.(exist := false), d];
    assert SetExist([a, b, c.(exist := false), d], 4, true) == [a, b, c, d];
    assert v.threads[..0] == [] && VisitThreads(st', 8, v.threads[..0]) == st';
  }

  /**
    A leader that is found terminated late: PID 7 is read with thread 8, then met again as
    terminated. The sweep frees the leader and keeps the thread, whose tgid pointer dangles.
   */
  lemma LateFailureLeavesDanglingPointer()
    ensures var vs := [Visit(7, true, [ThreadRead(8, true)]), Visit(7, false, [])];
            !WellFormed(Sample(State([], 1), vs, true).tasks)
  {
    var vs := [Visit(7, true, [ThreadRead(8, true)]), Visit(7, false, [])];
    var st := State([], 1);
    FirstVisitOfSeven(vs[0]);
    SecondVisitOfSeven(vs[1]);
    assert vs[..1] == [vs[0]] && vs[..1][..0] == [];
    assert Scan(st, vs[..1], true) == VisitPid(st, vs[0], true);
    assert Scan(st, vs, true) == VisitPid(VisitPid(st, vs[0], true), vs[1], true);
    var a, b := Task(1, 7, None, false, false), Task(2, 8, Some(1), true, false);
    assert [a, b][..1] == [a] && [a][..0] == [];
    assert Sweep([a]) == [] && Sweep([a, b]) == [b];
    assert MarkAll([]) == [];
    assert !Linked([b], 0);
  }

  lemma FirstVisitOfSeven(v: Visit)
    requires v == Visit(7, true, [ThreadRead(8, true)])
    ensures VisitPid(State([], 1), v, true)
            == State([Task(1, 7, None, true, false), Task(2, 8, Some(1), true, false)], 3)
  {
    var a, b := Task(1, 7, None, true, false), Task(2, 8, Some(1), true, false);
    assert Found(Add(State([], 1), 7, 0), true) == State([a], 2);
    assert ThreadSlot([a], 1, 8, 1) == 1;
    assert Inserted(State([a], 2), 1, 8, Some(1)).tasks == [a, b.(exist := false)];
    assert SetExist([a, b.(exist := false)], 2, true) == [a, b];
    assert VisitThread(State([a], 2), 7, v.threads[0]) == State([a, b], 3);
    assert v.threads[..0] == [];
    assert VisitThreads(State([a], 2), 7, v.threads[..0]) == State([a], 2);
  }

  lemma SecondVisitOfSeven(v: Visit)
    requires v == Visit(7, false, [])
    ensures var st := State([Task(1, 7, None, true, false), Task(2, 8, Some(1), true, false)], 3);
            VisitPid(st, v, true) == State([Task(1, 7, None, false, false), Task(2, 8, Some(1), true, false)], 3)
  {
    var a, b := Task(1, 7, None, true, false), Task(2, 8, Some(1), true, false);
    assert SetExist([a, b], 1, false) == [a.(exist := false), b];
  }
}
