/** The display pass of pidstat on the linked task list, with its F_PID_DISPLAYED flags. */
module TaskDisplayPass {
  import opened Wrappers
  import opened TaskModel
  import opened TaskDisplay
  import opened TaskNodes

  /** The addresses of the nodes whose flag is set. */
  ghost function ShownIds(nodes: seq<Node>): set<nat>
    reads nodes`shown
  {
    set i | 0 <= i < |nodes| && nodes[i].shown :: nodes[i].id
  }

  /** Node `k` is task `k` of the well-formed list `s`; its tgid pointer refers to the head of its group. */
  ghost predicate IsTask(s: seq<Task>, nodes: seq<Node>, k: nat)
    requires k < |s| == |nodes|
  {
    var p, h := nodes[k], Head(s, k);
    && p.id == s[k].id && p.pid == s[k].pid && p.owner == s[k].owner
    && if s[k].Leader() then p.tgid == null
       else p.tgid == nodes[h] && s[k].owner == Some(nodes[h].id) && nodes[h].pid == GroupPid(s, k)
  }

  /** The nodes are those of `s`, but for the flags. */
  ghost predicate AreTasks(s: seq<Task>, nodes: seq<Node>) {
    && |s| == |nodes|
    && (forall i, j {:trigger nodes[i].id, nodes[j].id} :: 0 <= i < j < |nodes| ==> nodes[i].id != nodes[j].id)
    && forall k {:trigger IsTask(s, nodes, k)} :: 0 <= k < |s| ==> IsTask(s, nodes, k)
  }

  lemma ListHoldsTasks(list: TaskList)
    requires list.Valid() && WellFormed(list.Tasks())
    ensures AreTasks(list.Tasks(), list.nodes)
  {
    var s, nodes := list.Tasks(), list.nodes;
    forall k | 0 <= k < |s| ensures IsTask(s, nodes, k) {
      HeadIs(s, k);
      assert OwnerId(nodes[k], list.nextId);
      assert nodes[k].owner == Some(nodes[Head(s, k)].id) ==> nodes[k].tgid == nodes[Head(s, k)];
    }
  }

  method SetShown(p: Node, flag: bool, ghost nodes: seq<Node>, ghost k: nat)
    requires forall i, j {:trigger nodes[i].id, nodes[j].id} :: 0 <= i < j < |nodes| ==> nodes[i].id != nodes[j].id
    requires k < |nodes| && p == nodes[k]
    modifies p`shown
    ensures p.shown == flag
    ensures ShownIds(nodes) == if flag then old(ShownIds(nodes)) + {p.id} else old(ShownIds(nodes)) - {p.id}
  {
    p.shown := flag;
    forall i | 0 <= i < |nodes| && i != k ensures nodes[i].id != p.id && nodes[i] != p {
      assert nodes[i].id != nodes[k].id;
    }
    assert forall id :: id in old(ShownIds(nodes)) && id != p.id ==> id in ShownIds(nodes);
  }

  /** get_pid_to_display: 0, -1 or 1 for a task that does not exist, is filtered out, or can be displayed. */
  method GetPidToDisplay(p: Node, o: Options, l: Looks, ghost s: seq<Task>, ghost nodes: seq<Node>, ghost k: nat)
    returns (rc: int)
    requires AreTasks(s, nodes) && k < |s| && p == nodes[k] && p.exist == s[k].exist
    modifies p`shown
    ensures rc == if !s[k].exist then 0 else if Accept(s[k], o, l, old(ShownIds(nodes))).1 then 1 else -1
    ensures ShownIds(nodes) == Accept(s[k], o, l, old(ShownIds(nodes))).0
  {
    assert IsTask(s, nodes, k);
    if !p.exist {
      return 0;
    }
    if p.tgid == null {
      SetShown(p, false, nodes, k);
    }
    if o.activeOnly && !l.active {
      return -1;
    }
    if o.byCommand && !l.command {
      return -1;
    }
    if o.byProcess {
      if p.tgid == null {
        if !l.process {
          return -1;
        }
      } else if !p.tgid.shown {
        return -1;
      }
    }
    if o.byUser && !l.user {
      return -1;
    }
    SetShown(p, true, nodes, k);
    return 1;
  }

  /** print_comm. */
  method PrintComm(p: Node, ghost s: seq<Task>, ghost nodes: seq<Node>, ghost k: nat) returns (line: Line)
    requires AreTasks(s, nodes) && k < |s| && p == nodes[k]
    modifies nodes`shown
    ensures (ShownIds(nodes), line) == Print(s[k], GroupPid(s, k), old(ShownIds(nodes)))
  {
    assert IsTask(s, nodes, k);
    if p.tgid != null {
      if p.tgid.shown {
        line := Below(p.pid);
      } else {
        line := WithLeader(p.tgid.pid, p.pid);
        SetShown(p.tgid, true, nodes, Head(s, k));
      }
    } else {
      line := LeaderLine(p.pid);
    }
  }

  /** One turn of the loop over the list: the lines with the task's line added, if it is accepted. */
  method DisplayTask(p: Node, o: Options, look: Look, lines: seq<Line>, ghost s: seq<Task>, ghost nodes: seq<Node>,
                     ghost k: nat)
    returns (lines': seq<Line>)
    requires AreTasks(s, nodes) && k < |s| && p == nodes[k] && p.exist == s[k].exist
    modifies nodes`shown
    ensures (ShownIds(nodes), lines') == Turn(s, k, o, look, old(ShownIds(nodes)), lines)
  {
    assert IsTask(s, nodes, k);
    lines' := lines;
    var l := look(p.pid, if p.tgid == null then 0 else p.tgid.pid);
    var rc := GetPidToDisplay(p, o, l, s, nodes, k);
    if rc > 0 {
      var line := PrintComm(p, s, nodes, k);
      lines' := lines + [line];
    }
  }

  /** The loop over the list that every plain display function of the program makes. */
  method DisplayTasks(head: Node?, o: Options, look: Look, ghost s: seq<Task>, ghost nodes: seq<Node>)
    returns (lines: seq<Line>)
    requires AreTasks(s, nodes) && Chain(head, nodes)
    requires forall k {:trigger nodes[k].exist} :: 0 <= k < |s| ==> nodes[k].exist == s[k].exist
    modifies nodes`shown
    ensures (ShownIds(nodes), lines) == Pass(s, |s|, o, look, old(ShownIds(nodes)))
  {
    ghost var shown := ShownIds(nodes);
    lines := [];
    var p := head;
    ghost var k := 0;
    while p != null
      invariant k <= |s| && p == NodeAt(nodes, k)
      invariant (ShownIds(nodes), lines) == Pass(s, k, o, look, shown)
      decreases |s| - k
    {
      lines := DisplayTask(p, o, look, lines, s, nodes, k);
      p, k := p.next, k + 1;
    }
  }

  /** A display pass; every task that it shows and every form is as the well-formed list demands. */
  method DisplayPass(list: TaskList, o: Options, look: Look) returns (lines: seq<Line>)
    requires list.Valid() && WellFormed(list.Tasks())
    modifies list.nodes`shown
    ensures list.Valid()
    ensures (ShownIds(list.nodes), lines) == Pass(old(list.Tasks()), |list.nodes|, o, look, old(ShownIds(list.nodes)))
    ensures AllExist(old(list.Tasks())) ==> lines == LinesOf(old(list.Tasks()), |list.nodes|, o, look)
  {
    ghost var s, shown := list.Tasks(), ShownIds(list.nodes);
    ListHoldsTasks(list);
    lines := DisplayTasks(list.head, o, look, s, list.nodes);
    FlagsKeepLeadersAscend(s, list.Tasks());
    if AllExist(s) { PassShowsAccepted(s, |s|, o, look, shown); }
  }
}
