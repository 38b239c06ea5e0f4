/** Interrupts per CPU in mpstat: reading a table whose columns are the online CPUs. */
module Interrupts {
  import opened Wrappers
  import opened Arithmetic

  const MAX_IRQ_LEN := 16

  /** A row of the table: the text before its colon, and the numbers behind it. */
  datatype Row = Row(name: string, values: seq<Word>)

  /** A line: the numbers behind each "CPU" in it, and its row if it has a colon. */
  datatype Line = Line(cpus: seq<int>, row: Option<Row>)

  // ----- The header

  /** The CPUs that the loop over a header line takes, `room` at most. */
  function Taken(cpus: seq<int>, cpuNr: nat, room: nat): (r: seq<nat>)
    ensures |r| <= room && forall k :: 0 <= k < |r| ==> r[k] < cpuNr
  {
    if cpus == [] || room == 0 || U32(cpus[0]) >= cpuNr then [] else [U32(cpus[0])] + Taken(cpus[1..], cpuNr, room - 1)
  }

  /** The loop over a header line has taken k CPUs and stands at the next number. */
  ghost predicate AtCpu(cpus: seq<int>, cpuNr: nat, k: nat) {
    k <= |cpus| && k <= cpuNr && k <= |Taken(cpus, cpuNr, cpuNr)|
    && Taken(cpus, cpuNr, cpuNr)[k..] == Taken(cpus[k..], cpuNr, cpuNr - k)
  }

  lemma AtCpuEnd(cpus: seq<int>, cpuNr: nat, k: nat)
    requires AtCpu(cpus, cpuNr, k) && (k == |cpus| || k == cpuNr || U32(cpus[k]) >= cpuNr)
    ensures k == |Taken(cpus, cpuNr, cpuNr)| && Taken(cpus, cpuNr, cpuNr)[..k] == Taken(cpus, cpuNr, cpuNr)
  {
    assert Taken(cpus, cpuNr, cpuNr)[k..] == [];
  }

  /** The header line is the first one that names a CPU. */
  function HeaderAt(lines: seq<Line>, cpuNr: nat): (h: nat)
    ensures h <= |lines|
  {
    if lines == [] || Taken(lines[0].cpus, cpuNr, cpuNr) != [] then 0 else 1 + HeaderAt(lines[1..], cpuNr)
  }

  function Online(lines: seq<Line>, cpuNr: nat): (r: seq<nat>)
    ensures |r| <= cpuNr && forall k :: 0 <= k < |r| ==> r[k] < cpuNr
  {
    var h := HeaderAt(lines, cpuNr);
    if h == |lines| then [] else Taken(lines[h].cpus, cpuNr, cpuNr)
  }

  // ----- Rows

  /** A value of a row; a missing one is read as zero. */
  function Value(r: Row, k: nat): (v: nat)
    ensures v < TWO_32
  {
    if k < |r.values| then U32(r.values[k]) else 0
  }

  function Name(r: Row): (n: string)
    ensures n <= r.name && |n| == if |r.name| > 15 then 15 else |r.name|
  {
    if |r.name| >= MAX_IRQ_LEN then r.name[..MAX_IRQ_LEN - 1] else r.name
  }

  /** The rows that are read: lines with a colon, as many as there are interrupts. */
  function FirstRows(lines: seq<Line>, icNr: nat): (r: seq<Row>)
    ensures |r| <= icNr
  {
    if lines == [] || icNr == 0 then []
    else if lines[0].row.Some? then [lines[0].row.value] + FirstRows(lines[1..], icNr - 1)
    else FirstRows(lines[1..], icNr)
  }

  /** The loop over the lines has read `irq` of the rows and stands at line t. */
  ghost predicate AtLine(lines: seq<Line>, t: nat, rows: seq<Row>, irq: nat, icNr: nat) {
    t <= |lines| && irq <= icNr && irq <= |rows| && rows[irq..] == FirstRows(lines[t..], icNr - irq)
  }

  lemma AtLineStep(lines: seq<Line>, t: nat, rows: seq<Row>, irq: nat, icNr: nat)
    requires AtLine(lines, t, rows, irq, icNr) && t < |lines| && irq < icNr
    ensures var row := lines[t].row;
            if row.Some? then irq < |rows| && rows[irq] == row.value && AtLine(lines, t + 1, rows, irq + 1, icNr)
            else AtLine(lines, t + 1, rows, irq, icNr)
  {
    assert lines[t..][1..] == lines[t + 1..];
    if lines[t].row.Some? {
      assert rows[irq..][0] == lines[t].row.value && rows[irq..][1..] == rows[irq + 1..];
    }
  }

  /** Where the lines below the header start. */
  function Below(lines: seq<Line>, cpuNr: nat): (n: nat)
    ensures n <= |lines|
  {
    var h := HeaderAt(lines, cpuNr);
    if h < |lines| then h + 1 else h
  }

  /** A cell after the first k columns of a row. */
  function CellAfter(r: Row, online: seq<nat>, k: nat, cpu: nat, was: nat): nat
    requires k <= |online|
  {
    if k == 0 then was else if online[k - 1] == cpu then Value(r, k - 1) else CellAfter(r, online, k - 1, cpu, was)
  }

  /** The total of a CPU after the first k columns of a row. */
  function TotalAfter(r: Row, online: seq<nat>, k: nat, cpu: nat, was: Word): Word
    requires k <= |online|
  {
    if k == 0 then was
    else
      var t := TotalAfter(r, online, k - 1, cpu, was);
      if online[k - 1] == cpu then U64(t + Value(r, k - 1)) else t
  }

  function TotalAfterRows(rows: seq<Row>, n: nat, online: seq<nat>, cpu: nat, was: Word): Word
    requires n <= |rows|
  {
    if n == 0 then was
    else TotalAfter(rows[n - 1], online, |online|, cpu, TotalAfterRows(rows, n - 1, online, cpu, was))
  }

  // ----- Forwarding

  /** Where the next forwarded range starts, behind the first k CPUs of the header. */
  function Next(online: seq<nat>, k: nat): nat
    requires k <= |online|
  {
    if k == 0 then 0 else online[k - 1] + 1
  }

  /** What has happened to the total of a CPU: nothing, set to zero, or set to the previous value. */
  datatype Fate = Kept | Zeroed | Forwarded

  function FateAfter(online: seq<nat>, k: nat, cpu: nat): Fate
    requires k <= |online|
  {
    if k == 0 then Kept
    else if Next(online, k - 1) <= cpu < online[k - 1] then Forwarded
    else if online[k - 1] == cpu then Zeroed
    else FateAfter(online, k - 1, cpu)
  }

  /** After the whole header, and the range behind its last CPU. */
  function TotalFate(online: seq<nat>, cpu: nat): Fate {
    if Next(online, |online|) <= cpu then Forwarded else FateAfter(online, |online|, cpu)
  }

  function WithFate(f: Fate, was: Word, prev: Word): Word {
    match f
    case Kept => was
    case Zeroed => 0
    case Forwarded => prev
  }

  /** The cells of a CPU have been forwarded by the first k CPUs of the header. */
  predicate CellForwarded(online: seq<nat>, k: nat, cpu: nat)
    requires k <= |online|
  {
    k > 0 && (Next(online, k - 1) <= cpu < online[k - 1] || CellForwarded(online, k - 1, cpu))
  }

  predicate EverForwarded(online: seq<nat>, cpu: nat) {
    Next(online, |online|) <= cpu || CellForwarded(online, |online|, cpu)
  }

  function Base(forwarded: bool, was: nat, prev: nat): nat {
    if forwarded then prev else was
  }

  // ----- A whole file

  /** What a file holds for the reader: the CPUs of its header and the rows below it. */
  datatype Table = Table(online: seq<nat>, rows: seq<Row>) {
    ghost predicate Names(names: seq<string>) {
      forall j :: 0 <= j < |names| ==> names[j] == if j < |rows| then Name(rows[j]) else ""
    }

    function Cell(cpu: nat, irq: nat, was: nat, prev: nat): nat {
      var base := Base(EverForwarded(online, cpu), was, prev);
      if irq < |rows| then CellAfter(rows[irq], online, |online|, cpu, base) else base
    }

    function Total(cpu: nat, was: Word, prev: Word): Word {
      TotalAfterRows(rows, |rows|, online, cpu, WithFate(TotalFate(online, cpu), was, prev))
    }
  }

  function Read(lines: seq<Line>, cpuNr: nat, icNr: nat): Table {
    Table(Online(lines, cpuNr), FirstRows(lines[Below(lines, cpuNr)..], icNr))
  }

  // ----- Headers in order

  /** The kernel lists the online CPUs in this order. */
  predicate Ascending(online: seq<nat>) {
    forall i, j :: 0 <= i < j < |online| ==> online[i] < online[j]
  }

  /** The CPUs in the order in which the header loop forwards or resets them. */
  function Covered(online: seq<nat>, k: nat): seq<nat>
    requires k <= |online|
  {
    if k == 0 then [] else Covered(online, k - 1) + Range(Next(online, k - 1), online[k - 1]) + [online[k - 1]]
  }

  function Cover(online: seq<nat>, cpuNr: nat): seq<nat> {
    Covered(online, |online|) + Range(Next(online, |online|), cpuNr)
  }

  /** Each CPU is either online or forwarded, once, exactly if the header is in ascending order. */
  lemma {:induction false} CoverIff(online: seq<nat>, cpuNr: nat)
    requires forall k :: 0 <= k < |online| ==> online[k] < cpuNr
    ensures Cover(online, cpuNr) == Range(0, cpuNr) <==> Ascending(online)
  {
    if Ascending(online) {
      CoveredAscending(online, |online|);
    } else {
      var k := CoveredBreaks(online, |online|);
      var d := Next(online, k);
      assert Cover(online, cpuNr)[d] == Covered(online, |online|)[d] == online[k];
      assert d < |Range(0, cpuNr)| ==> Range(0, cpuNr)[d] == d;
    }
  }

  lemma {:induction false} CoveredAscending(online: seq<nat>, k: nat)
    requires k <= |online| && Ascending(online[..k])
    ensures Covered(online, k) == Range(0, Next(online, k))
  {
    if k > 0 {
      assert online[..k - 1] == online[..k][..k - 1];
      CoveredAscending(online, k - 1);
      assert k > 1 ==> online[..k][k - 2] < online[..k][k - 1];
    }
  }

  /** At the first CPU that is out of order, what is covered leaves the numbers 0, 1, 2... */
  lemma {:induction false} CoveredBreaks(online: seq<nat>, n: nat) returns (k: nat)
    requires n <= |online| && !Ascending(online[..n])
    ensures k < n && online[k] < Next(online, k) < |Covered(online, n)|
    ensures Covered(online, n)[Next(online, k)] == online[k]
  {
    if Ascending(online[..n - 1]) {
      k := n - 1;
      CoveredAscending(online, k);
    } else {
      k := CoveredBreaks(online, n - 1);
    }
  }

  predicate Distinct(online: seq<nat>) {
    forall i, j :: 0 <= i < j < |online| ==> online[i] != online[j]
  }

  /** The total of every online CPU restarts from zero exactly if the header is in ascending order. */
  lemma TotalsRestartIff(online: seq<nat>)
    requires Distinct(online)
    ensures (forall cpu :: cpu in online ==> TotalFate(online, cpu) == Zeroed) <==> Ascending(online)
  {
    assert online[..|online|] == online;
    if Ascending(online) {
      forall cpu | cpu in online ensures TotalFate(online, cpu) == Zeroed { FateOfOnline(online, |online|, cpu); }
    } else {
      var cpu := ForwardedLate(online, |online|);
    }
  }

  /** The header "CPU1 CPU0": CPU 1 is forwarded behind the last CPU of the header, and keeps its previous total. */
  lemma DescendingHeaderForwardsOnlineCpu()
    ensures var online := [1, 0];
            !Ascending(online) && Cover(online, 2) != Range(0, 2) && TotalFate(online, 1) == Forwarded
              && EverForwarded(online, 1)
  {
    var online := [1, 0];
    assert online[0] > online[1];
    CoverIff(online, 2);
  }

  lemma {:induction false} FateOfOnline(online: seq<nat>, k: nat, cpu: nat)
    requires k <= |online| && Ascending(online) && cpu in online[..k]
    ensures FateAfter(online, k, cpu) == Zeroed && cpu < Next(online, k)
  {
    if cpu != online[k - 1] {
      assert online[..k] == online[..k - 1] + [online[k - 1]];
      FateOfOnline(online, k - 1, cpu);
    }
  }

  lemma {:induction false} ForwardedLate(online: seq<nat>, k: nat) returns (cpu: nat)
    requires k <= |online| && Distinct(online) && !Ascending(online[..k])
    ensures cpu in online[..k] && (FateAfter(online, k, cpu) == Forwarded || Next(online, k) <= cpu)
  {
    assert online[..k] == online[..k - 1] + [online[k - 1]];
    if Ascending(online[..k - 1]) {
      cpu := online[k - 2];
    } else {
      cpu := ForwardedLate(online, k - 1);
      assert cpu != online[k - 1];
    }
  }

  lemma {:induction false} FateOfOffline(online: seq<nat>, k: nat, cpu: nat)
    requires k <= |online| && Ascending(online) && cpu !in online[..k]
    ensures cpu < Next(online, k) ==> FateAfter(online, k, cpu) == Forwarded && CellForwarded(online, k, cpu)
  {
    if k > 0 {
      assert online[..k] == online[..k - 1] + [online[k - 1]];
      FateOfOffline(online, k - 1, cpu);
    }
  }

  lemma {:induction false} OnlineNotForwarded(online: seq<nat>, k: nat, j: nat)
    requires k <= |online| && Ascending(online) && j < |online|
    ensures !CellForwarded(online, k, online[j])
  {
    if k > 0 {
      OnlineNotForwarded(online, k - 1, j);
      assert k - 1 <= j || k == 1 || online[j] <= online[k - 2] || j == k - 1;
    }
  }

  /** The exact sum of the numbers of column j, each in 32 bits, over the first n rows. */
  function ColumnSum(rows: seq<Row>, n: nat, j: nat): nat
    requires n <= |rows|
  {
    if n == 0 then 0
    else
      var numbers := rows[n - 1].values;
      ColumnSum(rows, n - 1, j) + if j < |numbers| then numbers[j] % 0x1_0000_0000 else 0
  }

  lemma {:induction false} ColumnOf(r: Row, online: seq<nat>, k: nat, j: nat, was: nat, total: Word)
    requires k <= |online| && j < |online| && Distinct(online)
    ensures CellAfter(r, online, k, online[j], was) == if j < k then Value(r, j) else was
    ensures TotalAfter(r, online, k, online[j], total) == if j < k then U64(total + Value(r, j)) else total
  {
    if k > 0 { ColumnOf(r, online, k - 1, j, was, total); }
  }

  lemma {:induction false} NoColumn(r: Row, online: seq<nat>, k: nat, cpu: nat, was: nat, total: Word)
    requires k <= |online| && cpu !in online
    ensures CellAfter(r, online, k, cpu, was) == was && TotalAfter(r, online, k, cpu, total) == total
  {
    if k > 0 { NoColumn(r, online, k - 1, cpu, was, total); }
  }

  lemma {:induction false} RowsOfColumn(rows: seq<Row>, n: nat, online: seq<nat>, j: nat)
    requires n <= |rows| && j < |online| && Distinct(online)
    ensures TotalAfterRows(rows, n, online, online[j], 0) == U64(ColumnSum(rows, n, j))
  {
    if n > 0 {
      RowsOfColumn(rows, n - 1, online, j);
      ColumnOf(rows[n - 1], online, |online|, j, 0, U64(ColumnSum(rows, n - 1, j)));
      SumInWord(ColumnSum(rows, n - 1, j), Value(rows[n - 1], j));
    }
  }

  lemma {:induction false} RowsOfNoColumn(rows: seq<Row>, n: nat, online: seq<nat>, cpu: nat, was: Word)
    requires n <= |rows| && cpu !in online
    ensures TotalAfterRows(rows, n, online, cpu, was) == was
  {
    if n > 0 {
      RowsOfNoColumn(rows, n - 1, online, cpu, was);
      NoColumn(rows[n - 1], online, |online|, cpu, 0, was);
    }
  }

  /**
    An online CPU: its cells are the numbers of its column, in 32 bits, a missing one being zero,
    and its total is their sum, in 64 bits; a cell without a row is left alone.
   */
  lemma OnlineCpu(t: Table, j: nat, irq: nat, was: nat, total: Word, prev: nat, prevTotal: Word)
    requires Ascending(t.online) && j < |t.online|
    ensures t.Cell(t.online[j], irq, was, prev) ==
              if irq >= |t.rows| then was
              else if j < |t.rows[irq].values| then t.rows[irq].values[j] % 0x1_0000_0000
              else 0
    ensures t.Total(t.online[j], total, prevTotal) == ColumnSum(t.rows, |t.rows|, j) % 0x1_0000_0000_0000_0000
  {
    var n := |t.online|;
    assert t.online[..n] == t.online;
    OnlineNotForwarded(t.online, n, j);
    FateOfOnline(t.online, n, t.online[j]);
    if irq < |t.rows| { ColumnOf(t.rows[irq], t.online, n, j, was, 0); }
    RowsOfColumn(t.rows, |t.rows|, t.online, j);
  }

  /** An offline CPU: all its cells, and its total, are those of the previous sample. */
  lemma OfflineCpu(t: Table, cpu: nat, irq: nat, was: nat, total: Word, prev: nat, prevTotal: Word)
    requires Ascending(t.online) && cpu !in t.online
    ensures t.Cell(cpu, irq, was, prev) == prev && t.Total(cpu, total, prevTotal) == prevTotal
  {
    var n := |t.online|;
    assert t.online[..n] == t.online;
    FateOfOffline(t.online, n, cpu);
    if irq < |t.rows| { NoColumn(t.rows[irq], t.online, n, cpu, prev, 0); }
    RowsOfNoColumn(t.rows, |t.rows|, t.online, cpu, prevTotal);
  }

  // ----- The buffers

  /** st_irqcpu and st_irq of one sample; total i + 1 is that of CPU i. */
  class IrqBuffer {
    const names: array<string>
    const cells: array2<nat>
    const totals: array<Word>

    constructor (cpuNr: nat, icNr: nat)
      ensures Shape(cpuNr, icNr) && fresh(names) && fresh(cells) && fresh(totals)
    {
      names := new string[icNr](_ => "");
      cells := new nat[cpuNr, icNr]((_, _) => 0);
      totals := new Word[cpuNr + 1](_ => 0);
    }

    ghost predicate Shape(cpuNr: nat, icNr: nat) {
      cells.Length0 == cpuNr && cells.Length1 == icNr && names.Length == icNr && totals.Length == cpuNr + 1
    }
  }

  /** fwd_irq_values. */
  method FwdIrqValues(p: IrqBuffer, b: IrqBuffer, c: nat, last: nat, cpuNr: nat, icNr: nat)
    requires p.Shape(cpuNr, icNr) && b.Shape(cpuNr, icNr) && last <= cpuNr && p.cells != b.cells && p.totals != b.totals
    modifies b.cells, b.totals
    ensures forall i, j :: 0 <= i < cpuNr && 0 <= j < icNr ==>
                b.cells[i, j] == Base(c <= i < last, old(b.cells[i, j]), p.cells[i, j])
    ensures forall i :: 0 <= i <= cpuNr ==> b.totals[i] == if c < i <= last then p.totals[i] else old(b.totals[i])
  {
    var k := c;
    while k < last
      invariant c <= k && (k <= last || k == c)
      invariant forall i, j :: 0 <= i < cpuNr && 0 <= j < icNr ==>
                  b.cells[i, j] == Base(c <= i < k && i < last, old(b.cells[i, j]), p.cells[i, j])
      invariant forall i :: 0 <= i <= cpuNr ==>
                  b.totals[i] == if c < i <= k && i <= last then p.totals[i] else old(b.totals[i])
    {
      b.totals[k + 1] := p.totals[k + 1];
      for j := 0 to icNr
        invariant forall i :: 0 <= i <= cpuNr ==>
                    b.totals[i] == if c < i <= k + 1 then p.totals[i] else old(b.totals[i])
        invariant forall i, m :: 0 <= i < cpuNr && 0 <= m < icNr ==>
                    b.cells[i, m] == Base(c <= i < k || (i == k && m < j), old(b.cells[i, m]), p.cells[i, m])
      {
        b.cells[k, j] := p.cells[k, j];
      }
      k := k + 1;
    }
  }

  // ----- read_interrupts_stat

  method HeaderCpu(p: IrqBuffer, b: IrqBuffer, ghost online: seq<nat>, k: nat, cpu: nat, c: nat, cpuNr: nat, icNr: nat)
    requires p.Shape(cpuNr, icNr) && b.Shape(cpuNr, icNr) && p.cells != b.cells && p.totals != b.totals
    requires k < |online| && cpu == online[k] < cpuNr && c == Next(online, k)
    modifies b.cells, b.totals
    ensures forall i, j :: 0 <= i < cpuNr && 0 <= j < icNr ==>
              b.cells[i, j] == Base(c <= i < cpu, old(b.cells[i, j]), p.cells[i, j])
    ensures forall i :: 0 <= i <= cpuNr ==>
              b.totals[i] == if c < i <= cpu then p.totals[i] else if i == cpu + 1 then 0 else old(b.totals[i])
  {
    b.totals[cpu + 1] := 0;
    FwdIrqValues(p, b, c, cpu, cpuNr, icNr);
  }

  /** The loop over the CPUs of one header line. */
  method ReadHeaderLine(cpus: seq<int>, p: IrqBuffer, b: IrqBuffer, cpuNr: nat, icNr: nat)
    returns (cpuIndex: seq<nat>, c: nat)
    requires p.Shape(cpuNr, icNr) && b.Shape(cpuNr, icNr) && p.cells != b.cells && p.totals != b.totals
    modifies b.cells, b.totals
    ensures cpuIndex == Taken(cpus, cpuNr, cpuNr) && c == Next(cpuIndex, |cpuIndex|)
    ensures forall i, j :: 0 <= i < cpuNr && 0 <= j < icNr ==>
              b.cells[i, j] == Base(CellForwarded(cpuIndex, |cpuIndex|, i), old(b.cells[i, j]), p.cells[i, j])
    ensures b.totals[0] == old(b.totals[0])
    ensures forall i :: 0 < i <= cpuNr ==>
              b.totals[i] == WithFate(FateAfter(cpuIndex, |cpuIndex|, i - 1), old(b.totals[i]), p.totals[i])
  {
    ghost var online := Taken(cpus, cpuNr, cpuNr);
    cpuIndex, c := [], 0;
    var k := 0;
    while k < |cpus| && k < cpuNr
      invariant AtCpu(cpus, cpuNr, k) && cpuIndex == online[..k] && c == Next(online, k)
      invariant forall i, j :: 0 <= i < cpuNr && 0 <= j < icNr ==>
                  b.cells[i, j] == Base(CellForwarded(online, k, i), old(b.cells[i, j]), p.cells[i, j])
      invariant b.totals[0] == old(b.totals[0])
      invariant forall i :: 0 < i <= cpuNr ==>
                  b.totals[i] == WithFate(FateAfter(online, k, i - 1), old(b.totals[i]), p.totals[i])
    {
      var cpu := U32(cpus[k]);
      if cpu >= cpuNr {
        break;
      }
      HeaderCpu(p, b, online, k, cpu, c, cpuNr, icNr);
      cpuIndex := cpuIndex + [cpu];
      c := cpu + 1;
      k := k + 1;
    }
    AtCpuEnd(cpus, cpuNr, k);
  }

  /** The header part of the file; lines from `next` on are below it. */
  method ReadHeader(lines: seq<Line>, p: IrqBuffer, b: IrqBuffer, cpuNr: nat, icNr: nat)
    returns (cpuIndex: seq<nat>, next: nat)
    requires p.Shape(cpuNr, icNr) && b.Shape(cpuNr, icNr) && p.cells != b.cells && p.totals != b.totals
    modifies b.cells, b.totals
    ensures cpuIndex == Online(lines, cpuNr) && next == Below(lines, cpuNr)
    ensures forall i, j :: 0 <= i < cpuNr && 0 <= j < icNr ==>
              b.cells[i, j] == Base(EverForwarded(cpuIndex, i), old(b.cells[i, j]), p.cells[i, j])
    ensures b.totals[0] == old(b.totals[0])
    ensures forall i :: 0 < i <= cpuNr ==>
              b.totals[i] == WithFate(TotalFate(cpuIndex, i - 1), old(b.totals[i]), p.totals[i])
  {
    var c := 0;
    cpuIndex, next := [], 0;
    while next < |lines| && cpuIndex == []
      invariant next <= |lines| && c == Next(cpuIndex, |cpuIndex|)
      invariant cpuIndex == [] ==> HeaderAt(lines, cpuNr) == next + HeaderAt(lines[next..], cpuNr)
      invariant cpuIndex != [] ==> 0 < next && HeaderAt(lines, cpuNr) == next - 1 && cpuIndex == Online(lines, cpuNr)
      invariant forall i, j :: 0 <= i < cpuNr && 0 <= j < icNr ==>
                  b.cells[i, j] == Base(CellForwarded(cpuIndex, |cpuIndex|, i), old(b.cells[i, j]), p.cells[i, j])
      invariant b.totals[0] == old(b.totals[0])
      invariant forall i :: 0 < i <= cpuNr ==>
                  b.totals[i] == WithFate(FateAfter(cpuIndex, |cpuIndex|, i - 1), old(b.totals[i]), p.totals[i])
    {
      assert lines[next..][1..] == lines[next + 1..];
      cpuIndex, c := ReadHeaderLine(lines[next].cpus, p, b, cpuNr, icNr);
      next := next + 1;
    }
    FwdIrqValues(p, b, c, cpuNr, cpuNr, icNr);
  }

  /** One row, for interrupt number `irq`. */
  method ReadRow(r: Row, irq: nat, cpuIndex: seq<nat>, b: IrqBuffer, cpuNr: nat, icNr: nat)
    requires b.Shape(cpuNr, icNr) && irq < icNr && forall k :: 0 <= k < |cpuIndex| ==> cpuIndex[k] < cpuNr
    modifies b.names, b.cells, b.totals
    ensures b.names[..] == old(b.names[..])[irq := Name(r)]
    ensures forall i, j :: 0 <= i < cpuNr && 0 <= j < icNr ==>
              b.cells[i, j] == if j == irq then CellAfter(r, cpuIndex, |cpuIndex|, i, old(b.cells[i, j]))
                               else old(b.cells[i, j])
    ensures b.totals[0] == old(b.totals[0])
    ensures forall i :: 0 < i <= cpuNr ==> b.totals[i] == TotalAfter(r, cpuIndex, |cpuIndex|, i - 1, old(b.totals[i]))
  {
    b.names[irq] := Name(r);
    for k := 0 to |cpuIndex|
      invariant b.names[..] == old(b.names[..])[irq := Name(r)]
      invariant forall i, j :: 0 <= i < cpuNr && 0 <= j < icNr ==>
                  b.cells[i, j] == if j == irq then CellAfter(r, cpuIndex, k, i, old(b.cells[i, j]))
                                   else old(b.cells[i, j])
      invariant b.totals[0] == old(b.totals[0])
      invariant forall i :: 0 < i <= cpuNr ==> b.totals[i] == TotalAfter(r, cpuIndex, k, i - 1, old(b.totals[i]))
    {
      var cpu := cpuIndex[k];
      b.cells[cpu, irq] := Value(r, k);
      b.totals[cpu + 1] := U64(b.totals[cpu + 1] + b.cells[cpu, irq]);
    }
  }

  /** The rows, one by one, until there are as many as interrupts. */
  method ReadRows(lines: seq<Line>, ghost rows: seq<Row>, cpuIndex: seq<nat>, b: IrqBuffer, cpuNr: nat, icNr: nat)
    returns (irq: nat)
    requires AtLine(lines, 0, rows, 0, icNr)
    requires b.Shape(cpuNr, icNr) && forall k :: 0 <= k < |cpuIndex| ==> cpuIndex[k] < cpuNr
    modifies b.names, b.cells, b.totals
    ensures irq == |rows|
    ensures forall j :: 0 <= j < icNr ==> b.names[j] == if j < irq then Name(rows[j]) else old(b.names[j])
    ensures forall i, j :: 0 <= i < cpuNr && 0 <= j < icNr ==>
              b.cells[i, j] == if j < irq then CellAfter(rows[j], cpuIndex, |cpuIndex|, i, old(b.cells[i, j]))
                               else old(b.cells[i, j])
    ensures b.totals[0] == old(b.totals[0])
    ensures forall i :: 0 < i <= cpuNr ==>
              b.totals[i] == TotalAfterRows(rows, irq, cpuIndex, i - 1, old(b.totals[i]))
  {
    irq := 0;
    var t := 0;
    while t < |lines| && irq < icNr
      invariant AtLine(lines, t, rows, irq, icNr)
      invariant forall j :: 0 <= j < icNr ==> b.names[j] == if j < irq then Name(rows[j]) else old(b.names[j])
      invariant forall i, j :: 0 <= i < cpuNr && 0 <= j < icNr ==>
                  b.cells[i, j] == if j < irq then CellAfter(rows[j], cpuIndex, |cpuIndex|, i, old(b.cells[i, j]))
                                   else old(b.cells[i, j])
      invariant b.totals[0] == old(b.totals[0])
      invariant forall i :: 0 < i <= cpuNr ==>
                  b.totals[i] == TotalAfterRows(rows, irq, cpuIndex, i - 1, old(b.totals[i]))
    {
      AtLineStep(lines, t, rows, irq, icNr);
      if lines[t].row.Some? {
        ReadRow(lines[t].row.value, irq, cpuIndex, b, cpuNr, icNr);
        irq := irq + 1;
      }
      t := t + 1;
    }
  }

  /** read_interrupts_stat; without a file, `lines` is None. */
  method ReadInterruptsStat(lines: Option<seq<Line>>, p: IrqBuffer, b: IrqBuffer, cpuNr: nat, icNr: nat)
    requires p.Shape(cpuNr, icNr) && b.Shape(cpuNr, icNr) && p.cells != b.cells && p.totals != b.totals
    modifies b.names, b.cells, b.totals
    ensures lines.Some? ==> Read(lines.value, cpuNr, icNr).Names(b.names[..])
    ensures lines.Some? ==> forall i, j :: 0 <= i < cpuNr && 0 <= j < icNr ==>
              b.cells[i, j] == Read(lines.value, cpuNr, icNr).Cell(i, j, old(b.cells[i, j]), p.cells[i, j])
    ensures lines.Some? ==> forall i :: 0 < i <= cpuNr ==>
              b.totals[i] == Read(lines.value, cpuNr, icNr).Total(i - 1, old(b.totals[i]), p.totals[i])
    ensures b.totals[0] == old(b.totals[0])
    ensures lines.None? ==>
              && (forall j :: 0 <= j < icNr ==> b.names[j] == "") && b.totals[..] == old(b.totals[..])
              && (forall i, j :: 0 <= i < cpuNr && 0 <= j < icNr ==> b.cells[i, j] == old(b.cells[i, j]))
  {
    var irq := 0;
    if lines.Some? {
      var cpuIndex, next := ReadHeader(lines.value, p, b, cpuNr, icNr);
      ghost var rows := FirstRows(lines.value[next..], icNr);
      irq := ReadRows(lines.value[next..], rows, cpuIndex, b, cpuNr, icNr);
    }
    ClearNames(b, irq);
  }

  method ClearNames(b: IrqBuffer, irq: nat)
    requires irq <= b.names.Length
    modifies b.names
    ensures forall j :: 0 <= j < b.names.Length ==> b.names[j] == if j < irq then old(b.names[j]) else ""
  {
    for k := irq to b.names.Length
      invariant forall j :: 0 <= j < b.names.Length ==> b.names[j] == if j < irq || k <= j then old(b.names[j]) else ""
    {
      b.names[k] := "";
    }
  }
}
