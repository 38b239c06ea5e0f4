/** How mpstat finds the previous value of an interrupt whose row has moved. */
module IrqLookup {
  import opened Wrappers
  import opened Interrupts

  // ----- What the display functions do

  /** The first row with this name, from row `from` on. */
  function FirstAt(names: seq<string>, name: string, from: nat): (o: Option<nat>)
    requires from <= |names|
    ensures o.Some? ==> from <= o.value < |names| && names[o.value] == name
    ensures o.None? ==> forall i :: from <= i < |names| ==> names[i] != name
    decreases |names| - from
  {
    if from == |names| then None else if names[from] == name then Some(from) else FirstAt(names, name, from + 1)
  }

  /** The row that holds the previous value for current row j. Statistics since boot take the same row. */
  function Origin(prev: seq<string>, name: string, j: nat, sinceBoot: bool): Option<nat>
    requires j < |prev|
  {
    if sinceBoot || prev[j] == name then Some(j) else FirstAt(prev, name, 0)
  }

  /** The rows that are shown end at the first empty name. */
  function Live(names: seq<string>): (n: nat)
    ensures n <= |names| && forall i :: 0 <= i < n ==> names[i] != ""
    ensures n < |names| ==> names[n] == ""
  {
    if names == [] || names[0] == "" then 0
    else
      var n := Live(names[1..]);
      assert forall i :: 0 < i <= n ==> names[i] == names[1..][i - 1];
      1 + n
  }

  /** A value that is shown: its name, and the two counters of which the rate is computed. */
  datatype Entry = Entry(name: string, prev: nat, curr: nat)

  function EntryOf(prev: seq<string>, was: seq<nat>, name: string, value: nat, j: nat, sinceBoot: bool): Entry
    requires j < |prev| == |was|
  {
    match Origin(prev, name, j, sinceBoot)
    case Some(o) => Entry(name, was[o], value)
    case None => Entry(name, 0, value)
  }

  function Shown(prev: seq<string>, was: seq<nat>, curr: seq<string>, now: seq<nat>, sinceBoot: bool): seq<Entry>
    requires |prev| == |was| == |curr| == |now|
  {
    seq(Live(curr), j requires 0 <= j < Live(curr) => EntryOf(prev, was, curr[j], now[j], j, sinceBoot))
  }

  /** The cells of one CPU. */
  function CellsOf(b: IrqBuffer, cpu: nat): seq<nat>
    requires cpu < b.cells.Length0
    reads b.cells
  {
    seq(b.cells.Length1, j requires 0 <= j < b.cells.Length1 reads b.cells => b.cells[cpu, j])
  }

  /** Row o of the previous sample is taken for row j: the same row, or the first one with the name. */
  predicate Takes(names: seq<string>, name: string, j: nat, o: nat, sinceBoot: bool)
    requires j < |names| && o < |names|
  {
    if sinceBoot || names[j] == name then o == j else names[o] == name && forall i :: 0 <= i < o ==> names[i] != name
  }

  lemma {:induction false} FirstAtIsFirst(names: seq<string>, name: string, from: nat)
    requires from <= |names|
    ensures FirstAt(names, name, from).Some? ==>
              forall i :: from <= i < FirstAt(names, name, from).value ==> names[i] != name
    decreases |names| - from
  {
    if from < |names| && names[from] != name { FirstAtIsFirst(names, name, from + 1); }
  }

  lemma OriginIs(prev: seq<string>, name: string, j: nat, o: nat, sinceBoot: bool)
    requires j < |prev| && o < |prev|
    ensures Takes(prev, name, j, o, sinceBoot) <==> Origin(prev, name, j, sinceBoot) == Some(o)
  {
    FirstAtIsFirst(prev, name, 0);
  }

  /** An entry holds the current cell, and the previous one of the row that is taken, or zero. */
  ghost predicate ShowsCell(e: Entry, p: IrqBuffer, b: IrqBuffer, cpu: nat, j: nat, sinceBoot: bool)
    requires cpu < p.cells.Length0 && cpu < b.cells.Length0 && j < p.names.Length == p.cells.Length1
    requires j < b.names.Length == b.cells.Length1
    reads p.names, p.cells, b.names, b.cells
  {
    && e.name == b.names[j] != "" && e.curr == b.cells[cpu, j]
    && (forall o :: 0 <= o < p.names.Length && Takes(p.names[..], e.name, j, o, sinceBoot) ==>
          e.prev == p.cells[cpu, o])
    && ((forall o :: 0 <= o < p.names.Length ==> !Takes(p.names[..], e.name, j, o, sinceBoot)) ==> e.prev == 0)
  }

  lemma EntryShowsCell(p: IrqBuffer, b: IrqBuffer, cpu: nat, cpuNr: nat, icNr: nat, j: nat, sinceBoot: bool)
    requires p.Shape(cpuNr, icNr) && b.Shape(cpuNr, icNr) && cpu < cpuNr && j < Live(b.names[..])
    ensures ShowsCell(Shown(p.names[..], CellsOf(p, cpu), b.names[..], CellsOf(b, cpu), sinceBoot)[j],
                      p, b, cpu, j, sinceBoot)
  {
    forall o | 0 <= o < icNr
      ensures Takes(p.names[..], b.names[j], j, o, sinceBoot)
              <==> Origin(p.names[..], b.names[j], j, sinceBoot) == Some(o)
    {
      OriginIs(p.names[..], b.names[j], j, o, sinceBoot);
    }
  }

  method FindName(p: IrqBuffer, name: string) returns (offset: nat)
    ensures offset == match FirstAt(p.names[..], name, 0) case Some(o) => o case None => p.names.Length
  {
    offset := 0;
    while offset < p.names.Length
      invariant offset <= p.names.Length && FirstAt(p.names[..], name, offset) == FirstAt(p.names[..], name, 0)
    {
      if p.names[offset] == name {
        break;
      }
      offset := offset + 1;
    }
  }

  /** The inner loop of write_plain_irqcpu_stats, for CPU number `cpu`. */
  method ShowIrqs(p: IrqBuffer, b: IrqBuffer, cpu: nat, cpuNr: nat, icNr: nat, sinceBoot: bool)
    returns (shown: seq<Entry>)
    requires p.Shape(cpuNr, icNr) && b.Shape(cpuNr, icNr) && cpu < cpuNr
    ensures shown == Shown(p.names[..], CellsOf(p, cpu), b.names[..], CellsOf(b, cpu), sinceBoot)
    ensures |shown| <= icNr && forall j :: 0 <= j < |shown| ==> ShowsCell(shown[j], p, b, cpu, j, sinceBoot)
    ensures |shown| < icNr ==> b.names[|shown|] == ""
  {
    ghost var all := Shown(p.names[..], CellsOf(p, cpu), b.names[..], CellsOf(b, cpu), sinceBoot);
    shown := [];
    for j := 0 to icNr
      invariant j <= |all| && shown == all[..j]
    {
      var name := b.names[j];
      assert name == b.names[..][j];
      if name == "" {
        break;
      }
      var offset := j;
      if p.names[j] != name && !sinceBoot {
        offset := FindName(p, name);
      }
      if sinceBoot || (offset < icNr && p.names[offset] == name) {
        shown := shown + [Entry(name, p.cells[cpu, offset], b.cells[cpu, j])];
      } else {
        shown := shown + [Entry(name, 0, b.cells[cpu, j])];
      }
    }
    forall j | 0 <= j < |shown| ensures ShowsCell(shown[j], p, b, cpu, j, sinceBoot) {
      EntryShowsCell(p, b, cpu, cpuNr, icNr, j, sinceBoot);
    }
  }

  // ----- What they are for: a table keyed by name

  ghost predicate UniqueNames(names: seq<string>) {
    forall i, j :: 0 <= i < j < |names| && names[i] != "" ==> names[i] != names[j]
  }

  function ByName(names: seq<string>, values: seq<nat>): map<string, nat>
    requires |names| == |values|
  {
    if names == [] then map[]
    else
      var n := |names| - 1;
      var m := ByName(names[..n], values[..n]);
      if names[n] == "" then m else m[names[n] := values[n]]
  }

  lemma {:induction false} ByNameHolds(names: seq<string>, values: seq<nat>, name: string)
    requires |names| == |values| && UniqueNames(names)
    ensures name in ByName(names, values) <==> name != "" && name in names
    ensures forall i :: 0 <= i < |names| && names[i] == name != "" ==> ByName(names, values)[name] == values[i]
  {
    if names != [] {
      var n := |names| - 1;
      ByNameHolds(names[..n], values[..n], name);
      assert names == names[..n] + [names[n]];
      forall i | 0 <= i < |names| && names[i] == name != ""
        ensures name in ByName(names, values) && ByName(names, values)[name] == values[i]
      {
        assert i < n ==> names[..n][i] == name && values[..n][i] == values[i];
      }
    }
  }

  /** The entry for a name and its current value, from a table. */
  function Keyed(table: map<string, nat>, name: string, value: nat): Entry {
    Entry(name, if name in table then table[name] else 0, value)
  }

  /** In an interval, each row that is shown uses the previous value of the same name, wherever its row was. */
  lemma ShownIsKeyed(prev: seq<string>, was: seq<nat>, curr: seq<string>, now: seq<nat>)
    requires |prev| == |was| == |curr| == |now| && UniqueNames(prev)
    ensures Shown(prev, was, curr, now, false)
            == seq(Live(curr), j requires 0 <= j < Live(curr) => Keyed(ByName(prev, was), curr[j], now[j]))
  {
    forall j | 0 <= j < Live(curr)
      ensures EntryOf(prev, was, curr[j], now[j], j, false) == Keyed(ByName(prev, was), curr[j], now[j])
    {
      ByNameHolds(prev, was, curr[j]);
    }
  }

  /** A row that is shown has no previous row, so counts from zero, exactly if its name is new. */
  lemma NoOriginIff(prev: seq<string>, name: string, j: nat)
    requires j < |prev|
    ensures Origin(prev, name, j, false).None? <==> name !in prev
    ensures Origin(prev, name, j, false).Some? ==> prev[Origin(prev, name, j, false).value] == name
  {
  }

  // ----- Rows that move

  function Pairs(names: seq<string>, values: seq<nat>): seq<(string, nat)>
    requires |names| == |values|
  {
    seq(|names|, i requires 0 <= i < |names| => (names[i], values[i]))
  }

  lemma InPairs(names: seq<string>, values: seq<nat>, name: string, v: nat)
    requires |names| == |values| && UniqueNames(names)
    ensures name in ByName(names, values) && ByName(names, values)[name] == v <==>
              name != "" && (name, v) in Pairs(names, values)
  {
    ByNameHolds(names, values, name);
    var s := Pairs(names, values);
    if name != "" && (name, v) in s {
      var i :| 0 <= i < |s| && s[i] == (name, v);
      assert names[i] == name && values[i] == v;
    }
    if name in ByName(names, values) && ByName(names, values)[name] == v {
      var i :| 0 <= i < |names| && names[i] == name;
      assert s[i] == (name, v);
    }
  }

  /** Previous rows in another order show the same entries. */
  lemma RowsMayMove(prev: seq<string>, was: seq<nat>, prev': seq<string>, was': seq<nat>, curr: seq<string>,
                    now: seq<nat>)
    requires |prev| == |was| == |prev'| == |was'| == |curr| == |now| && UniqueNames(prev) && UniqueNames(prev')
    requires multiset(Pairs(prev, was)) == multiset(Pairs(prev', was'))
    ensures Shown(prev, was, curr, now, false) == Shown(prev', was', curr, now, false)
  {
    var m, m' := ByName(prev, was), ByName(prev', was');
    forall p: (string, nat) ensures p in Pairs(prev, was) <==> p in Pairs(prev', was') {
      assert p in Pairs(prev, was) <==> p in multiset(Pairs(prev, was));
      assert p in Pairs(prev', was') <==> p in multiset(Pairs(prev', was'));
    }
    forall name | name in m ensures name in m' && m'[name] == m[name] {
      InPairs(prev, was, name, m[name]);
      InPairs(prev', was', name, m[name]);
    }
    forall name | name in m' ensures name in m {
      InPairs(prev, was, name, m'[name]);
      InPairs(prev', was', name, m'[name]);
    }
    assert m == m';
    ShownIsKeyed(prev, was, curr, now);
    ShownIsKeyed(prev', was', curr, now);
  }

  /**
    A row that appears or disappears elsewhere changes no other entry: the entry of a name depends on
    that name alone.
   */
  lemma OtherRowsDoNotMatter(prev: seq<string>, was: seq<nat>, prev': seq<string>, was': seq<nat>, name: string,
                             value: nat, j: nat, j': nat)
    requires |prev| == |was| && |prev'| == |was'| && UniqueNames(prev) && UniqueNames(prev')
    requires j < |prev| && j' < |prev'| && name != ""
    requires forall v :: (name, v) in Pairs(prev, was) <==> (name, v) in Pairs(prev', was')
    ensures EntryOf(prev, was, name, value, j, false) == EntryOf(prev', was', name, value, j', false)
  {
    EntryInPairs(prev, was, name, value, j);
    EntryInPairs(prev', was', name, value, j');
    ByNameHolds(prev, was, name);
    ByNameHolds(prev', was', name);
    if name in ByName(prev, was) {
      InPairs(prev, was, name, ByName(prev, was)[name]);
      InPairs(prev', was', name, ByName(prev, was)[name]);
    }
    if name in ByName(prev', was') {
      InPairs(prev, was, name, ByName(prev', was')[name]);
      InPairs(prev', was', name, ByName(prev', was')[name]);
    }
  }

  lemma EntryInPairs(prev: seq<string>, was: seq<nat>, name: string, value: nat, j: nat)
    requires |prev| == |was| && UniqueNames(prev) && j < |prev| && name != ""
    ensures EntryOf(prev, was, name, value, j, false) == Keyed(ByName(prev, was), name, value)
  {
    ByNameHolds(prev, was, name);
  }

  /** A name is looked up to its own row, wherever the current row stands. */
  ghost predicate EveryRowFound(prev: seq<string>) {
    forall o, j :: 0 <= o < |prev| && 0 <= j < |prev| && prev[o] != "" ==> Origin(prev, prev[o], j, false) == Some(o)
  }

  /**
    Each named row is found again in its place and wherever else it is looked for, if and only if the
    names are unique.
   */
  lemma EveryRowIsFoundIff(prev: seq<string>)
    ensures EveryRowFound(prev) <==> UniqueNames(prev)
  {
    if EveryRowFound(prev) {
      forall i, j | 0 <= i < j < |prev| && prev[i] != "" ensures prev[i] != prev[j] {
        assert Origin(prev, prev[i], j, false) == Some(i);
      }
    }
  }

  /** Two names that are equal in their first 15 characters: a row that moved may get the wrong previous value. */
  lemma RepeatedNamesMislead()
    ensures EntryOf(["x", "a", "a"], [0, 1, 2], "a", 9, 0, false) == Entry("a", 1, 9)
    ensures EntryOf(["x", "a", "a"], [0, 1, 2], "a", 9, 2, false) == Entry("a", 2, 9)
  {
    var names := ["x", "a", "a"];
    assert FirstAt(names, "a", 0) == FirstAt(names, "a", 1) == Some(1);
  }
}
