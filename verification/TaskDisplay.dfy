/**
  One display pass of pidstat over the task list: which tasks are accepted, and in which of
  its three forms print_comm shows an accepted task.
 */
module TaskDisplay {
  import opened Wrappers
  import opened TaskModel

  /** Which of the filters of get_pid_to_display are in force: active tasks only, -C, -G and -U. */
  datatype Options = Options(activeOnly: bool, byCommand: bool, byProcess: bool, byUser: bool)

  /** What the filters find in a task. */
  datatype Looks = Looks(active: bool, command: bool, process: bool, user: bool)

  /** A leader; a thread below a leader shown earlier; a thread named "(leader)__thread". */
  datatype Line = LeaderLine(pid: int) | Below(pid: int) | WithLeader(leader: int, pid: int)

  /** Looks are those of a PID in a group: `look(pid, 0)` for a leader, `look(tid, pid)` for a thread. */
  type Look = (int, int) -> Looks

  function GroupPid(s: seq<Task>, i: nat): int
    requires i < |s|
  {
    s[Head(s, i)].pid
  }

  function LooksOf(s: seq<Task>, i: nat, look: Look): Looks
    requires i < |s|
  {
    look(s[i].pid, if s[i].Leader() then 0 else GroupPid(s, i))
  }

  // ----- The pass as the program makes it: `shown` holds the addresses of the nodes with F_PID_DISPLAYED set

  /** The tests of get_pid_to_display on an existing task. */
  predicate Passes(t: Task, o: Options, l: Looks, shown: set<nat>) {
    && (o.activeOnly ==> l.active)
    && (o.byCommand ==> l.command)
    && (o.byProcess ==> if t.Leader() then l.process else t.owner.value in shown)
    && (o.byUser ==> l.user)
  }

  /** get_pid_to_display: the flags, and whether the task can be displayed. */
  function Accept(t: Task, o: Options, l: Looks, shown: set<nat>): (set<nat>, bool) {
    if !t.exist then (shown, false)
    else
      var cleared := if t.Leader() then shown - {t.id} else shown;
      if Passes(t, o, l, cleared) then (cleared + {t.id}, true) else (cleared, false)
  }

  /** print_comm: the flags, and the form in which the task is shown. */
  function Print(t: Task, group: int, shown: set<nat>): (set<nat>, Line) {
    if t.Leader() then (shown, LeaderLine(t.pid))
    else if t.owner.value in shown then (shown, Below(t.pid))
    else (shown + {t.owner.value}, WithLeader(group, t.pid))
  }

  function Turn(s: seq<Task>, i: nat, o: Options, look: Look, shown: set<nat>, lines: seq<Line>): (set<nat>, seq<Line>)
    requires i < |s|
  {
    var (shown', ok) := Accept(s[i], o, LooksOf(s, i, look), shown);
    if ok then
      var (shown'', line) := Print(s[i], GroupPid(s, i), shown');
      (shown'', lines + [line])
    else
      (shown', lines)
  }

  /** The pass over the first `n` nodes. */
  function Pass(s: seq<Task>, n: nat, o: Options, look: Look, shown: set<nat>): (set<nat>, seq<Line>)
    requires n <= |s|
  {
    if n == 0 then (shown, [])
    else
      var (shown', lines) := Pass(s, n - 1, o, look, shown);
      Turn(s, n - 1, o, look, shown', lines)
  }

  // ----- What the pass means

  /** A task is accepted on its own looks; with -G, a thread instead with its leader. */
  predicate Accepted(s: seq<Task>, i: nat, o: Options, look: Look)
    requires i < |s|
  {
    var l := LooksOf(s, i, look);
    && (o.activeOnly ==> l.active)
    && (o.byCommand ==> l.command)
    && (o.byUser ==> l.user)
    && (o.byProcess ==> if Head(s, i) == i then l.process else Accepted(s, Head(s, i), o, look))
  }

  /** Someone of group `h` was accepted among the first `n` tasks. */
  ghost predicate GroupSeen(s: seq<Task>, h: nat, n: nat, o: Options, look: Look)
    requires h < |s| && n <= |s|
  {
    exists j :: 0 <= j < n && Head(s, j) == h && Accepted(s, j, o, look)
  }

  /** The form of an accepted task: a thread names its leader exactly if nobody of its group was shown before. */
  ghost function LineOf(s: seq<Task>, i: nat, o: Options, look: Look): Line
    requires i < |s|
  {
    if Head(s, i) == i then LeaderLine(s[i].pid)
    else if GroupSeen(s, Head(s, i), i, o, look) then Below(s[i].pid)
    else WithLeader(GroupPid(s, i), s[i].pid)
  }

  ghost function LinesOf(s: seq<Task>, n: nat, o: Options, look: Look): seq<Line>
    requires n <= |s|
  {
    if n == 0 then []
    else LinesOf(s, n - 1, o, look) + if Accepted(s, n - 1, o, look) then [LineOf(s, n - 1, o, look)] else []
  }

  /** After `n` turns a leader's flag is set exactly if someone of its group was accepted. */
  ghost predicate FlagsMeanSeen(s: seq<Task>, n: nat, o: Options, look: Look, shown: set<nat>)
    requires n <= |s|
  {
    forall h :: 0 <= h < n && s[h].Leader() ==> (s[h].id in shown <==> GroupSeen(s, h, n, o, look))
  }

  lemma HeadIs(s: seq<Task>, i: nat)
    requires WellFormed(s) && i < |s|
    ensures var h := Head(s, i);
            s[h].Leader() && Head(s, h) == h && (h == i <==> s[i].Leader()) && (h < i ==> s[i].owner == Some(s[h].id))
  {
    HeadOwnsGroup(s, i);
  }

  /** One more task: the groups seen are those seen before, and its own if it is accepted. */
  lemma GroupSeenStep(s: seq<Task>, h: nat, n: nat, o: Options, look: Look)
    requires h < |s| && n < |s|
    ensures GroupSeen(s, h, n + 1, o, look) <==>
              GroupSeen(s, h, n, o, look) || (Head(s, n) == h && Accepted(s, n, o, look))
  {
  }

  /** With -G a group is seen only if its leader is accepted. */
  lemma SeenMeansLeaderAccepted(s: seq<Task>, h: nat, n: nat, o: Options, look: Look)
    requires WellFormed(s) && h < n <= |s| && s[h].Leader() && o.byProcess
    ensures GroupSeen(s, h, n, o, look) <==> Accepted(s, h, o, look)
  {
    HeadIs(s, h);
    if Accepted(s, h, o, look) { assert GroupSeen(s, h, n, o, look); }
  }

  lemma AcceptIsAccepted(s: seq<Task>, n: nat, o: Options, look: Look, shown: set<nat>)
    requires WellFormed(s) && n < |s| && s[n].exist && FlagsMeanSeen(s, n, o, look, shown)
    ensures Accept(s[n], o, LooksOf(s, n, look), shown).1 == Accepted(s, n, o, look)
  {
    HeadIs(s, n);
    var h := Head(s, n);
    if h < n && o.byProcess { SeenMeansLeaderAccepted(s, h, n, o, look); }
  }

  lemma TurnKeepsMeaning(s: seq<Task>, n: nat, o: Options, look: Look, shown: set<nat>, lines: seq<Line>)
    requires WellFormed(s) && n < |s| && s[n].exist && FlagsMeanSeen(s, n, o, look, shown)
    ensures var (shown', lines') := Turn(s, n, o, look, shown, lines);
            && FlagsMeanSeen(s, n + 1, o, look, shown')
            && lines' == lines + if Accepted(s, n, o, look) then [LineOf(s, n, o, look)] else []
  {
    HeadIs(s, n);
    AcceptIsAccepted(s, n, o, look, shown);
    var (shown', lines') := Turn(s, n, o, look, shown, lines);
    forall h | 0 <= h < n + 1 && s[h].Leader() ensures s[h].id in shown' <==> GroupSeen(s, h, n + 1, o, look) {
      GroupSeenStep(s, h, n, o, look);
      if h == n { NotSeenYet(s, n, o, look); }
    }
  }

  /** Nobody of a group stands before its leader. */
  lemma NotSeenYet(s: seq<Task>, h: nat, o: Options, look: Look)
    requires h < |s|
    ensures !GroupSeen(s, h, h, o, look)
  {
  }

  /**
    A display pass over a well-formed list whose tasks all exist shows exactly the accepted
    tasks, in list order, each in the form that LineOf gives, whatever flags earlier passes left.
   */
  lemma {:induction false} PassShowsAccepted(s: seq<Task>, n: nat, o: Options, look: Look, shown: set<nat>)
    requires WellFormed(s) && AllExist(s) && n <= |s|
    ensures FlagsMeanSeen(s, n, o, look, Pass(s, n, o, look, shown).0)
    ensures Pass(s, n, o, look, shown).1 == LinesOf(s, n, o, look)
  {
    PassMeans(s, n, o, look, shown, Pass(s, n, o, look, shown));
  }

  lemma {:induction false} PassMeans(s: seq<Task>, n: nat, o: Options, look: Look, shown: set<nat>,
                                     pass: (set<nat>, seq<Line>))
    requires WellFormed(s) && AllExist(s) && n <= |s| && pass == Pass(s, n, o, look, shown)
    ensures FlagsMeanSeen(s, n, o, look, pass.0) && pass.1 == LinesOf(s, n, o, look)
  {
    if n > 0 {
      var m: nat := n - 1;
      var before := Pass(s, m, o, look, shown);
      PassMeans(s, m, o, look, shown, before);
      PassStep(s, m, o, look, shown, before, pass);
      NextTurnKeepsMeaning(s, m, o, look, before, pass);
      assert n == m + 1;
    }
  }

  lemma PassStep(s: seq<Task>, n: nat, o: Options, look: Look, shown: set<nat>, before: (set<nat>, seq<Line>),
                 after: (set<nat>, seq<Line>))
    requires n < |s| && before == Pass(s, n, o, look, shown) && after == Pass(s, n + 1, o, look, shown)
    ensures after == Turn(s, n, o, look, before.0, before.1)
  {
  }

  /** One more turn, from the pair of flags and lines `before` to the pair `after`. */
  lemma NextTurnKeepsMeaning(s: seq<Task>, n: nat, o: Options, look: Look, before: (set<nat>, seq<Line>),
                             after: (set<nat>, seq<Line>))
    requires WellFormed(s) && n < |s| && s[n].exist && FlagsMeanSeen(s, n, o, look, before.0)
    requires before.1 == LinesOf(s, n, o, look) && after == Turn(s, n, o, look, before.0, before.1)
    ensures FlagsMeanSeen(s, n + 1, o, look, after.0) && after.1 == LinesOf(s, n + 1, o, look)
  {
    TurnKeepsMeaning(s, n, o, look, before.0, before.1);
  }

  /** With -G a thread is accepted only with its leader, and is not shown as "(leader)__thread". */
  lemma ProcessFilterNeedsLeader(s: seq<Task>, i: nat, o: Options, look: Look)
    requires WellFormed(s) && i < |s| && o.byProcess && Accepted(s, i, o, look)
    ensures Accepted(s, Head(s, i), o, look) && !LineOf(s, i, o, look).WithLeader?
  {
    HeadIs(s, i);
    if Head(s, i) < i { SeenMeansLeaderAccepted(s, Head(s, i), i, o, look); }
  }

  /** With -G no pass shows a task as "(leader)__thread": print_comm sets no leader's flag. */
  lemma {:induction false} ProcessFilterNeverNamesLeader(s: seq<Task>, n: nat, o: Options, look: Look)
    requires WellFormed(s) && n <= |s| && o.byProcess
    ensures forall line :: line in LinesOf(s, n, o, look) ==> !line.WithLeader?
  {
    if n > 0 {
      ProcessFilterNeverNamesLeader(s, n - 1, o, look);
      if Accepted(s, n - 1, o, look) { ProcessFilterNeedsLeader(s, n - 1, o, look); }
    }
  }

  /** The "(leader)__" form is used at most once a group, by the first accepted thread of a leader not accepted. */
  lemma LeaderNamedAtMostOnce(s: seq<Task>, i: nat, j: nat, o: Options, look: Look)
    requires WellFormed(s) && i < j < |s| && Head(s, i) == Head(s, j)
    requires Accepted(s, i, o, look) && Accepted(s, j, o, look)
    ensures !LineOf(s, j, o, look).WithLeader?
    ensures LineOf(s, i, o, look).WithLeader? ==> !Accepted(s, Head(s, i), o, look)
  {
    HeadIs(s, i);
    HeadIs(s, j);
    assert GroupSeen(s, Head(s, j), j, o, look);
    if Accepted(s, Head(s, i), o, look) && Head(s, i) < i { assert GroupSeen(s, Head(s, i), i, o, look); }
  }

  /** The filters that look at the task itself. */
  predicate PassesOwn(l: Looks, o: Options) {
    (o.activeOnly ==> l.active) && (o.byCommand ==> l.command) && (o.byUser ==> l.user)
  }

  /** A leader is judged by its own looks; a thread of leader `h` by those of its number in that group. */
  lemma AcceptedIff(s: seq<Task>, i: nat, h: nat, o: Options, look: Look)
    requires WellFormed(s) && i < |s| && h < |s|
    ensures s[i].owner == None ==> var l := look(s[i].pid, 0);
              Accepted(s, i, o, look) <==> PassesOwn(l, o) && (o.byProcess ==> l.process)
    ensures s[i].owner == Some(s[h].id) ==> var l := look(s[i].pid, s[h].pid);
              Accepted(s, i, o, look) <==> PassesOwn(l, o) && (o.byProcess ==> Accepted(s, h, o, look))
  {
    HeadIs(s, i);
    assert s[i].owner == Some(s[h].id) ==> h == Head(s, i);
  }

  /** Somebody in front of task i, leader `h` or one of its threads, is accepted. */
  ghost predicate SeenBefore(s: seq<Task>, h: nat, i: nat, o: Options, look: Look)
    requires h < |s| && i <= |s|
  {
    exists j :: 0 <= j < i && (j == h || s[j].owner == Some(s[h].id)) && Accepted(s, j, o, look)
  }

  /** The form of each line: the first accepted task of a group that is a thread names its leader. */
  lemma LineIs(s: seq<Task>, i: nat, h: nat, o: Options, look: Look)
    requires WellFormed(s) && i < |s| && h < |s|
    ensures s[i].owner == None ==> LineOf(s, i, o, look) == LeaderLine(s[i].pid)
    ensures s[i].owner == Some(s[h].id) ==>
              LineOf(s, i, o, look)
              == if SeenBefore(s, h, i, o, look) then Below(s[i].pid) else WithLeader(s[h].pid, s[i].pid)
  {
    HeadIs(s, i);
    if s[i].owner == Some(s[h].id) {
      assert h == Head(s, i) && s[h].Leader();
      forall j | 0 <= j < i ensures Head(s, j) == h <==> j == h || s[j].owner == Some(s[h].id) {
        HeadIs(s, j);
        HeadIs(s, h);
      }
    }
  }
}
