/** The report loop of iostat, on its linked list of devices. */
module DeviceReport {
  import opened Wrappers
  import opened Arithmetic
  import opened DeviceStats
  import opened GroupPass
  import opened DeviceLines

  /** A struct io_device; stats[k] is dev_stats[k]. */
  class Device {
    const name: string
    var devTp: int
    var exist: bool
    var stats: seq<Io>
    var next: Device?

    constructor (name: string, devTp: int)
      ensures this.name == name && this.devTp == devTp && exist && stats == [ZERO, ZERO] && next == null
    {
      this.name := name;
      this.devTp, exist, stats, next := devTp, true, [ZERO, ZERO], null;
    }
  }

  function Samples(curr: nat, now: Io, was: Io): seq<Io> {
    if curr == 0 then [now, was] else [was, now]
  }

  /** The nodes of a list in order. */
  ghost predicate Linked(nodes: seq<Device>)
    reads nodes
  {
    && (forall i, j :: 0 <= i < j < |nodes| ==> nodes[i] != nodes[j])
    && (forall i {:trigger nodes[i].next} :: 0 <= i < |nodes| ==> nodes[i].next == At(nodes, i + 1))
  }

  function At(nodes: seq<Device>, i: nat): Device? {
    if i < |nodes| then nodes[i] else null
  }

  /** What a device holds. */
  datatype Value = Value(name: string, tp: int, exist: bool, stats: seq<Io>)

  function ValueOf(d: Device): Value
    reads d
  {
    Value(d.name, d.devTp, d.exist, d.stats)
  }

  /** Device i when the loop stands at position n. */
  function ValueAt(e: seq<Entry>, i: nat, n: nat, curr: nat, opts: Options): Value
    requires i < |e|
  {
    Value(e[i].name, TpAt(e, i, n, opts), e[i].exist, Samples(curr, CurrAt(e, i, n, opts), e[i].prev))
  }

  ghost predicate Holds(nodes: seq<Device>, e: seq<Entry>, n: nat, curr: nat, opts: Options)
    reads nodes
  {
    |nodes| == |e| && forall i :: 0 <= i < |nodes| ==> ValueOf(nodes[i]) == ValueAt(e, i, n, curr, opts)
  }

  method ClearGroup(g: Device, curr: nat)
    requires curr < 2 && |g.stats| == 2
    modifies g
    ensures g.devTp == old(g.devTp) && g.exist == old(g.exist) && g.next == old(g.next)
    ensures g.stats == Samples(curr, ZERO, old(g.stats)[1 - curr])
  {
    g.stats := g.stats[curr := ZERO];
  }

  /** compute_device_groups_stats. */
  method ComputeDeviceGroupsStats(curr: nat, d: Device, g: Device, unfiltered: bool)
    requires curr < 2 && |d.stats| == 2 && |g.stats| == 2
    modifies g`stats
    ensures g.stats == if unfiltered || !Idle(old(d.stats[curr]))
                       then old(g.stats)[curr := Add(old(g.stats[curr]), old(d.stats[curr]))]
                       else old(g.stats)
  {
    if !unfiltered {
      if Idle(d.stats[curr]) {
        return;
      }
    }
    g.stats := g.stats[curr := Add(g.stats[curr], d.stats[curr])];
  }

  /** A device within a group. */
  method AddMember(curr: nat, d: Device, g: Device, unfiltered: bool)
    requires curr < 2 && |d.stats| == 2 && |g.stats| == 2 && d != g
    modifies g
    ensures g.devTp == old(g.devTp) + 1 && g.exist == old(g.exist) && g.next == old(g.next)
    ensures g.stats == if unfiltered || !Idle(d.stats[curr])
                       then old(g.stats)[curr := Add(old(g.stats[curr]), d.stats[curr])]
                       else old(g.stats)
  {
    g.devTp := g.devTp + 1;
    ComputeDeviceGroupsStats(curr, d, g, unfiltered);
  }

  /** The line of a device that has its turn. */
  method Write(d: Device, curr: nat, opts: Options) returns (written: bool, ioi: Io, ioj: Io)
    requires curr < 2 && |d.stats| == 2
    ensures (if written then Some(Line(d.name, d.devTp, ioi, ioj)) else None)
            == Written(d.name, d.devTp, d.stats[curr], d.stats[1 - curr], opts)
    ensures written <==> InReport(d.stats[curr], d.stats[1 - curr], opts)
    ensures ioi == d.stats[curr]
    ensures written ==> ioj == if KeepsReference(d.stats[curr], d.stats[1 - curr]) then d.stats[1 - curr] else ZERO
  {
    ioi, ioj := d.stats[curr], d.stats[1 - curr];
    if !opts.unfiltered && Idle(ioi) {
      return false, ioi, ioj;
    }
    if opts.zeroOmit && SameIos(ioi, ioj) {
      return false, ioi, ioj;
    }
    if Replaced(ioi, ioj) {
      ioj := ZERO;
    }
    written := true;
  }

  /** What follows the choice of the device that has its turn; `g` is the pending group. */
  method TakeTurn(d: Device, g: Device?, curr: nat, opts: Options) returns (lines: seq<Line>)
    requires curr < 2 && |d.stats| == 2 && d != g && (g != null ==> |g.stats| == 2)
    modifies if g == null then {} else {g}
    ensures lines == OptionLines(
                       if d.devTp < T_GROUP && (!d.exist || (opts.totalOnly && g != null)) then None
                       else Written(d.name, d.devTp, d.stats[curr], d.stats[1 - curr], opts))
    ensures lines != [] <==> InReport(d.stats[curr], d.stats[1 - curr], opts)
                             && (d.devTp < 3 ==> d.exist && !(opts.totalOnly && g != null))
    ensures lines != [] ==> IsLine(lines[0], d.name, d.devTp, d.stats[curr], d.stats[1 - curr])
    ensures g != null ==>
              && g.exist == old(g.exist) && g.next == old(g.next)
              && g.devTp == old(g.devTp) + (if d.devTp < T_GROUP && d.exist && opts.first then 1 else 0)
              && g.stats == (if d.devTp < T_GROUP && d.exist && opts.first && (opts.unfiltered || !Idle(d.stats[curr]))
                             then old(g.stats)[curr := Add(old(g.stats[curr]), d.stats[curr])] else old(g.stats))
  {
    lines := [];
    if !d.exist && d.devTp < T_GROUP {
      return;
    }
    if g != null && opts.first && d.devTp < T_GROUP {
      AddMember(curr, d, g, opts.unfiltered);
    }
    if opts.totalOnly && g != null && d.devTp < T_GROUP {
      return;
    }
    var written, ioi, ioj := Write(d, curr, opts);
    if written {
      lines := [Line(d.name, d.devTp, ioi, ioj)];
    }
  }

  function OptionLines(l: Option<Line>): seq<Line> {
    match l
    case Some(line) => [line]
    case None => []
  }

  /** Reaching a group clears it, and changes no other device. */
  lemma ReachedValue(e: seq<Entry>, k: nat, i: nat, gp: int, curr: nat, opts: Options)
    requires curr < 2 && i < |e| && k < |e| && Pending(e, i, gp) && e[i].IsGroup()
    ensures ValueAt(e, k, i + 1, curr, opts)
            == (var v := ValueAt(e, k, i, curr, opts);
                if k == i then v.(stats := Samples(curr, ZERO, v.stats[1 - curr])) else v)
  {
    if k == i {
      StepReached(e, i, opts);
    } else if k == gp {
      StepToGroup(e, i, k, opts);
    } else {
      StepElsewhere(e, k, i, gp, opts);
    }
  }

  /** The loop reaches a group: it becomes the pending one. */
  method ReachGroup(d: Device, ghost nodes: seq<Device>, ghost e: seq<Entry>, ghost i: nat, ghost gp: int, curr: nat,
                    opts: Options)
    requires curr < 2 && i < |e| && Linked(nodes) && Holds(nodes, e, i, curr, opts) && Pending(e, i, gp)
    requires e[i].IsGroup()
    requires d == nodes[i]
    modifies d
    ensures Linked(nodes) && Holds(nodes, e, i + 1, curr, opts)
  {
    assert ValueOf(nodes[i]) == ValueAt(e, i, i, curr, opts);
    ClearGroup(d, curr);
    forall k | 0 <= k < |nodes| ensures ValueOf(nodes[k]) == ValueAt(e, k, i + 1, curr, opts) {
      assert old(ValueOf(nodes[k])) == ValueAt(e, k, i, curr, opts);
      ReachedValue(e, k, i, gp, curr, opts);
    }
  }

  /**
    Device t has its turn, while the loop stands at position i: a group behind its last member, any
    other device at its own position.
   */
  ghost predicate HasTurn(e: seq<Entry>, t: nat, i: nat, gp: int) {
    && t < |e| && gp < |e| && gp != t
    && if e[t].IsGroup() then t < i && EndOf(e, t + 1) <= i else t == i && Pending(e, i, gp)
  }

  lemma LineOfTurn(e: seq<Entry>, t: nat, i: nat, gp: int, opts: Options)
    requires HasTurn(e, t, i, gp)
    ensures LineOf(e, t, opts)
            == if !e[t].IsGroup() && (!e[t].exist || (opts.totalOnly && gp >= 0)) then None
               else Written(e[t].name, TpAt(e, t, i, opts), CurrAt(e, t, i, opts), e[t].prev, opts)
  {
    if !e[t].IsGroup() { DeviceIsPassed(e, i, gp); }
  }

  /** What a turn does to a device: only the pending group may change. */
  lemma TurnValue(e: seq<Entry>, k: nat, t: nat, i: nat, gp: int, curr: nat, opts: Options)
    requires curr < 2 && k < |e| && HasTurn(e, t, i, gp)
    ensures ValueAt(e, k, AfterTurn(e, t, i), curr, opts)
            == if k == gp then WithMember(ValueAt(e, k, i, curr, opts), e[t], curr, opts)
               else ValueAt(e, k, i, curr, opts)
  {
    if !e[t].IsGroup() {
      if k == gp {
        StepToMember(e, i, k, opts);
      } else {
        StepElsewhere(e, k, i, gp, opts);
      }
    }
  }

  function AfterTurn(e: seq<Entry>, t: nat, i: nat): nat
    requires t < |e|
  {
    if e[t].IsGroup() then i else i + 1
  }

  function WithMember(v: Value, d: Entry, curr: nat, opts: Options): Value
    requires curr < |v.stats|
  {
    if d.IsGroup() || !d.exist || !opts.first then v
    else
      var stats := if opts.unfiltered || !Idle(d.curr) then v.stats[curr := Add(v.stats[curr], d.curr)] else v.stats;
      v.(tp := v.tp + 1, stats := stats)
  }

  method Turn(d: Device, g: Device?, ghost nodes: seq<Device>, ghost e: seq<Entry>, ghost t: nat, ghost i: nat,
              ghost gp: int,
              curr: nat, opts: Options) returns (lines: seq<Line>)
    requires curr < 2 && Linked(nodes) && Holds(nodes, e, i, curr, opts) && HasTurn(e, t, i, gp)
    requires d == nodes[t] && g == if gp < 0 then null else nodes[gp]
    modifies if g == null then {} else {g}
    ensures Linked(nodes) && Holds(nodes, e, AfterTurn(e, t, i), curr, opts)
    ensures lines == OptionLines(LineOf(e, t, opts))
  {
    assert ValueOf(nodes[t]) == ValueAt(e, t, i, curr, opts);
    assert gp >= 0 ==> ValueOf(nodes[gp]) == ValueAt(e, gp, i, curr, opts);
    TurnTaker(e, t, i, curr, opts);
    LineOfTurn(e, t, i, gp, opts);
    lines := TakeTurn(d, g, curr, opts);
    forall k | 0 <= k < |nodes| ensures ValueOf(nodes[k]) == ValueAt(e, k, AfterTurn(e, t, i), curr, opts) {
      assert old(ValueOf(nodes[k])) == ValueAt(e, k, i, curr, opts);
      TurnValue(e, k, t, i, gp, curr, opts);
    }
  }

  /** The device that has its turn is still what the list said of it. */
  lemma TurnTaker(e: seq<Entry>, t: nat, i: nat, curr: nat, opts: Options)
    requires curr < 2 && t < |e|
    ensures TpAt(e, t, i, opts) < T_GROUP <==> !e[t].IsGroup()
    ensures !e[t].IsGroup() ==> CurrAt(e, t, i, opts) == e[t].curr
  {
  }

  /** The list at the start of the pass. */
  function Entries(nodes: seq<Device>, curr: nat): (e: seq<Entry>)
    requires curr < 2 && forall k :: 0 <= k < |nodes| ==> |nodes[k].stats| == 2
    reads nodes
    ensures |e| == |nodes| && forall k :: 0 <= k < |e| ==>
              e[k] == Entry(nodes[k].name, nodes[k].devTp, nodes[k].exist, nodes[k].stats[curr],
                            nodes[k].stats[1 - curr])
  {
    if nodes == [] then []
    else
      var d := nodes[|nodes| - 1];
      Entries(nodes[..|nodes| - 1], curr) + [Entry(d.name, d.devTp, d.exist, d.stats[curr], d.stats[1 - curr])]
  }

  /** When the samples have changed roles, the reference of a group is what it showed in this report. */
  lemma ReferenceIsLastSum(nodes: seq<Device>, e: seq<Entry>, curr: nat, opts: Options, g: nat)
    requires curr < 2 && Holds(nodes, e, |e|, curr, opts) && g < |e| && e[g].IsGroup() && opts.first
    requires forall k :: 0 <= k < |nodes| ==> |nodes[k].stats| == 2
    ensures Entries(nodes, 1 - curr)[g].prev == Sum(Members(e, g + 1, EndOf(e, g + 1), opts.unfiltered))
  {
    assert ValueOf(nodes[g]) == ValueAt(e, g, |e|, curr, opts);
  }

  ghost predicate Stands(nodes: seq<Device>, e: seq<Entry>, i: nat, gp: int, d: Device?, g: Device?, curr: nat,
                         opts: Options)
    reads nodes
  {
    && Linked(nodes) && Holds(nodes, e, i, curr, opts) && Pending(e, i, gp)
    && d == At(nodes, i) && g == if gp < 0 then null else nodes[gp]
  }

  function LinesInOrder(e: seq<Entry>, opts: Options): seq<Line> {
    OrderIsWithin(e);
    Lines(e, Order(e), opts)
  }

  /** Who has the next turn, and where the loop then stands; or nobody, at the first group. */
  datatype Choice = Choice(t: int, i: nat, gp: int)

  ghost function Next(e: seq<Entry>, i: nat, gp: int): Choice
    requires Pending(e, i, gp) && (i < |e| || gp >= 0)
  {
    if i == |e| then Choice(gp, i, -1)
    else if e[i].IsGroup() then Choice(gp, i + 1, i)
    else Choice(i, i, gp)
  }

  /** Where the loop stands after that turn. */
  ghost function After(e: seq<Entry>, c: Choice): nat
    requires c.t < |e|
  {
    if c.t < 0 then c.i else AfterTurn(e, c.t, c.i)
  }

  lemma NextIsPending(e: seq<Entry>, i: nat, gp: int, c: Choice)
    requires Pending(e, i, gp) && (i < |e| || gp >= 0) && c == Next(e, i, gp)
    ensures c.gp < |e| && c.t < |e| && Pending(e, After(e, c), c.gp) && (c.t >= 0 ==> HasTurn(e, c.t, c.i, c.gp))
    ensures After(e, c) == if i == |e| then i else i + 1
  {
    if i == |e| {
      RestEnd(e, gp);
    } else if e[i].IsGroup() {
      GroupIsPending(e, i);
      if gp >= 0 { GroupEnds(e, i, gp); }
    } else {
      DeviceIsPassed(e, i, gp);
    }
  }

  lemma NextRest(e: seq<Entry>, i: nat, gp: int, c: Choice)
    requires Pending(e, i, gp) && (i < |e| || gp >= 0) && c == Next(e, i, gp) && c.gp < |e| && c.t < |e|
    requires After(e, c) <= |e|
    ensures Rest(e, i, gp) == (if c.t < 0 then [] else [c.t]) + Rest(e, After(e, c), c.gp)
  {
    if i == |e| {
      RestEnd(e, gp);
    } else if e[i].IsGroup() {
      if gp >= 0 {
        RestNextGroup(e, i, gp);
      } else {
        RestFirstGroup(e, i);
      }
    } else {
      RestDevice(e, i, gp);
    }
  }

  /** What the report shows so far, after the next turn. */
  lemma NextProgress(e: seq<Entry>, i: nat, gp: int, c: Choice, handled: seq<nat>, shown: seq<Line>, opts: Options)
    returns (handled': seq<nat>)
    requires Pending(e, i, gp) && (i < |e| || gp >= 0) && c == Next(e, i, gp)
    requires Progress(e, handled, shown, Rest(e, i, gp), opts)
    ensures c.gp < |e| && c.t < |e| && After(e, c) <= |e|
    ensures i < After(e, c) || (i == After(e, c) && gp >= 0 && c.gp < 0)
    ensures Progress(e, handled', shown + (if c.t < 0 then [] else OptionLines(LineOf(e, c.t, opts))),
                     Rest(e, After(e, c), c.gp), opts)
  {
    NextIsPending(e, i, gp, c);
    NextRest(e, i, gp, c);
    if c.t < 0 {
      handled' := handled;
      assert shown + [] == shown && [] + Rest(e, After(e, c), c.gp) == Rest(e, After(e, c), c.gp);
    } else {
      handled' := handled + [c.t];
      ProgressTurn(e, handled, shown, c.t, Rest(e, After(e, c), c.gp), opts);
    }
  }

  lemma ProgressEnds(e: seq<Entry>, handled: seq<nat>, shown: seq<Line>, opts: Options)
    ensures Progress(e, [], [], Order(e), opts) && Rest(e, 0, -1) == Order(e) && Pending(e, 0, -1)
    ensures Progress(e, handled, shown, Rest(e, |e|, -1), opts) ==> shown == LinesInOrder(e, opts)
  {
    assert Range(0, EndOf(e, 0)) + [] + Groups(e, EndOf(e, 0)) == Order(e);
    assert [] + Order(e) == Order(e);
    assert Rest(e, |e|, -1) == [] && handled + [] == handled;
  }

  lemma ReportEnds(e: seq<Entry>, handled: seq<nat>, shown: seq<Line>, opts: Options)
    requires Progress(e, handled, shown, Rest(e, |e|, -1), opts)
    ensures shown == LinesInOrder(e, opts) && ShowsDevices(e, opts, shown)
  {
    ProgressEnds(e, handled, shown, opts);
    OrderIsWithin(e);
    ReportShowsDevices(e, opts);
  }

  lemma StartHolds(nodes: seq<Device>, e: seq<Entry>, curr: nat, opts: Options)
    requires curr < 2 && (forall k :: 0 <= k < |nodes| ==> |nodes[k].stats| == 2) && e == Entries(nodes, curr)
    ensures Holds(nodes, e, 0, curr, opts)
  {
  }

  /** The head of the loop: whose turn it is, and which group is pending then. */
  method Choose(d: Device?, g: Device?, ghost nodes: seq<Device>, ghost e: seq<Entry>, ghost i: nat, ghost gp: int,
                ghost c: Choice, curr: nat, opts: Options)
    returns (d': Device?, g': Device?, dnext: Device?)
    requires curr < 2 && Stands(nodes, e, i, gp, d, g, curr, opts) && (i < |e| || gp >= 0) && c == Next(e, i, gp)
    modifies if d == null then {} else {d}
    ensures Linked(nodes) && Holds(nodes, e, c.i, curr, opts)
    ensures d' == (if c.t < 0 then null else nodes[c.t]) && g' == (if c.gp < 0 then null else nodes[c.gp])
    ensures dnext == At(nodes, i + 1)
  {
    d', g', dnext := d, g, null;
    if d == null {
      d', g' := g, null;
    } else {
      dnext := d.next;
      assert d == nodes[i] && ValueOf(nodes[i]) == ValueAt(e, i, i, curr, opts);
      TurnTaker(e, i, i, curr, opts);
      assert (d.devTp >= T_GROUP <==> e[i].IsGroup()) && c.i == if e[i].IsGroup() then i + 1 else i;
      if d.devTp >= T_GROUP {
        d', g' := g, d;
        ReachGroup(d, nodes, e, i, gp, curr, opts);
      }
    }
  }

  /** One round of the loop. */
  method Round(d: Device?, g: Device?, ghost nodes: seq<Device>, ghost e: seq<Entry>, ghost i: nat, ghost gp: int,
               ghost c: Choice, curr: nat, opts: Options)
    returns (d': Device?, g': Device?, lines: seq<Line>)
    requires curr < 2 && Stands(nodes, e, i, gp, d, g, curr, opts) && (i < |e| || gp >= 0) && c == Next(e, i, gp)
    modifies nodes
    ensures c.gp < |e| && c.t < |e| && Stands(nodes, e, After(e, c), c.gp, d', g', curr, opts)
    ensures lines == if c.t < 0 then [] else OptionLines(LineOf(e, c.t, opts))
  {
    NextIsPending(e, i, gp, c);
    var turn: Device?;
    turn, g', d' := Choose(d, g, nodes, e, i, gp, c, curr, opts);
    lines := [];
    if turn != null {
      lines := Turn(turn, g', nodes, e, c.t, c.i, c.gp, curr, opts);
    }
  }

  /**
    The device loop of write_stats, one part of a report: the devices have their turns in the
    order of the specification, and show what it says; afterwards each group holds the sum of
    its members and has counted them, and nothing else has changed.
   */
  method WriteStats(devList: Device?, ghost nodes: seq<Device>, curr: nat, opts: Options) returns (shown: seq<Line>)
    requires curr < 2 && Linked(nodes) && devList == At(nodes, 0)
    requires forall k :: 0 <= k < |nodes| ==> |nodes[k].stats| == 2
    modifies nodes
    ensures Linked(nodes) && Holds(nodes, old(Entries(nodes, curr)), |nodes|, curr, opts)
    ensures shown == LinesInOrder(old(Entries(nodes, curr)), opts)
    ensures ShowsDevices(old(Entries(nodes, curr)), opts, shown)
  {
    ghost var e := Entries(nodes, curr);
    ghost var i: nat, gp: int, handled: seq<nat> := 0, -1, [];
    var d, g: Device? := devList, null;
    shown := [];
    ProgressEnds(e, [], [], opts);
    StartHolds(nodes, e, curr, opts);
    while d != null || g != null
      invariant Stands(nodes, e, i, gp, d, g, curr, opts) && Progress(e, handled, shown, Rest(e, i, gp), opts)
      decreases |e| - i, if gp >= 0 then 1 else 0
    {
      ghost var c := Next(e, i, gp);
      handled := NextProgress(e, i, gp, c, handled, shown, opts);
      var lines;
      d, g, lines := Round(d, g, nodes, e, i, gp, c, curr, opts);
      shown := shown + lines;
      i, gp := After(e, c), c.gp;
    }
    ReportEnds(e, handled, shown, opts);
  }
}
