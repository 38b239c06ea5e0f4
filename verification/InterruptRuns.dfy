/** Runs of mpstat's interrupt reader over two alternating buffers. */
module InterruptRuns {
  import opened Wrappers
  import opened Arithmetic
  import opened Interrupts

  // ----- What the buffers hold after a run

  /** What one reading does to a cell: nothing if the file was not there. */
  function StepCell(t: Option<Table>, cpu: nat, irq: nat, was: nat, prev: nat): nat {
    match t
    case None => was
    case Some(table) => table.Cell(cpu, irq, was, prev)
  }

  function StepTotal(t: Option<Table>, cpu: nat, was: Word, prev: Word): Word {
    match t
    case None => was
    case Some(table) => table.Total(cpu, was, prev)
  }

  /** A cell of the buffer that was read last; before that reading it held what the last but one had left there. */
  function RunCell(ts: seq<Option<Table>>, cpu: nat, irq: nat): nat {
    if ts == [] then 0
    else
      var n := |ts| - 1;
      StepCell(ts[n], cpu, irq, if n == 0 then 0 else RunCell(ts[..n - 1], cpu, irq), RunCell(ts[..n], cpu, irq))
  }

  function RunTotal(ts: seq<Option<Table>>, cpu: nat): Word {
    if ts == [] then 0
    else
      var n := |ts| - 1;
      StepTotal(ts[n], cpu, if n == 0 then 0 else RunTotal(ts[..n - 1], cpu), RunTotal(ts[..n], cpu))
  }

  function TableOf(file: Option<seq<Line>>, cpuNr: nat, icNr: nat): Option<Table> {
    match file
    case None => None
    case Some(lines) => Some(Read(lines, cpuNr, icNr))
  }

  function TablesOf(files: seq<Option<seq<Line>>>, cpuNr: nat, icNr: nat): seq<Option<Table>> {
    seq(|files|, k requires 0 <= k < |files| => TableOf(files[k], cpuNr, icNr))
  }

  /** The buffer holds the cells and totals of a run. */
  ghost predicate Holds(b: IrqBuffer, ts: seq<Option<Table>>, cpuNr: nat, icNr: nat)
    requires b.Shape(cpuNr, icNr)
    reads b.cells, b.totals
  {
    && (forall i, j :: 0 <= i < cpuNr && 0 <= j < icNr ==> b.cells[i, j] == RunCell(ts, i, j))
    && (forall i :: 0 < i <= cpuNr ==> b.totals[i] == RunTotal(ts, i - 1))
  }

  lemma RunStep(ts: seq<Option<Table>>, n: nat, cpu: nat, irq: nat)
    requires n < |ts|
    ensures RunCell(ts[..n + 1], cpu, irq)
            == StepCell(ts[n], cpu, irq, RunCell(ts[..if n == 0 then 0 else n - 1], cpu, irq),
                        RunCell(ts[..n], cpu, irq))
    ensures RunTotal(ts[..n + 1], cpu)
            == StepTotal(ts[n], cpu, RunTotal(ts[..if n == 0 then 0 else n - 1], cpu), RunTotal(ts[..n], cpu))
  {
    var s := ts[..n + 1];
    assert s[..n] == ts[..n];
    if n > 0 { assert s[..n - 1] == ts[..n - 1]; }
  }

  /** One reading, into the buffer that is not the last one. */
  method NextReading(file: Option<seq<Line>>, last: IrqBuffer, next: IrqBuffer, cpuNr: nat, icNr: nat,
                     ghost ts: seq<Option<Table>>, ghost n: nat)
    requires last.Shape(cpuNr, icNr) && next.Shape(cpuNr, icNr)
    requires last.cells != next.cells && last.totals != next.totals
    requires n < |ts| && ts[n] == TableOf(file, cpuNr, icNr)
    requires Holds(last, ts[..n], cpuNr, icNr) && Holds(next, ts[..if n == 0 then 0 else n - 1], cpuNr, icNr)
    modifies next.names, next.cells, next.totals
    ensures Holds(last, ts[..n], cpuNr, icNr) && Holds(next, ts[..n + 1], cpuNr, icNr)
  {
    ReadInterruptsStat(file, last, next, cpuNr, icNr);
    forall i, j | 0 <= i < cpuNr && 0 <= j < icNr ensures next.cells[i, j] == RunCell(ts[..n + 1], i, j) {
      RunStep(ts, n, i, j);
    }
    forall i | 0 < i <= cpuNr ensures next.totals[i] == RunTotal(ts[..n + 1], i - 1) {
      RunStep(ts, n, i - 1, 0);
    }
  }

  /** The readings of a run: buffer 0 first, then the two in turn. */
  method ReadRun(files: seq<Option<seq<Line>>>, b0: IrqBuffer, b1: IrqBuffer, cpuNr: nat, icNr: nat)
    returns (last: IrqBuffer)
    requires b0.Shape(cpuNr, icNr) && b1.Shape(cpuNr, icNr) && b0.cells != b1.cells && b0.totals != b1.totals
    requires b0.names != b1.names && Holds(b0, [], cpuNr, icNr) && Holds(b1, [], cpuNr, icNr)
    modifies b0.names, b0.cells, b0.totals, b1.names, b1.cells, b1.totals
    ensures (last == b0 || last == b1) && last.Shape(cpuNr, icNr)
    ensures Holds(last, TablesOf(files, cpuNr, icNr), cpuNr, icNr)
  {
    ghost var ts := TablesOf(files, cpuNr, icNr);
    var next := b0;
    last := b1;
    assert ts[..0] == [];
    for t := 0 to |files|
      invariant (last == b0 && next == b1) || (last == b1 && next == b0)
      invariant Holds(last, ts[..t], cpuNr, icNr) && Holds(next, ts[..if t == 0 then 0 else t - 1], cpuNr, icNr)
    {
      NextReading(files[t], last, next, cpuNr, icNr, ts, t);
      last, next := next, last;
    }
    assert ts[..|files|] == ts;
  }

  // ----- What a run means

  function ColumnOfCpu(online: seq<nat>, cpu: nat): (j: nat)
    requires cpu in online
    ensures j < |online| && online[j] == cpu
  {
    if online[0] == cpu then 0 else 1 + ColumnOfCpu(online[1..], cpu)
  }

  /** Every reading finds its file, with an ascending header. */
  ghost predicate Orderly(ts: seq<Option<Table>>) {
    forall k :: 0 <= k < |ts| ==> ts[k].Some? && Ascending(ts[k].value.online)
  }

  /** Each time the CPU is online there is a row for the interrupt. */
  ghost predicate RowThere(ts: seq<Option<Table>>, cpu: nat, irq: nat)
    requires Orderly(ts)
  {
    forall k :: 0 <= k < |ts| && cpu in ts[k].value.online ==> irq < |ts[k].value.rows|
  }

  /** Number j of a row, in 32 bits; a missing one counts as zero. */
  function NumberAt(numbers: seq<Word>, j: nat): nat {
    if j < |numbers| then numbers[j] % 0x1_0000_0000 else 0
  }

  /** The value that was read last while the CPU was online, or zero. */
  function LastValue(ts: seq<Option<Table>>, cpu: nat, irq: nat): nat
    requires Orderly(ts)
  {
    if ts == [] then 0
    else
      var t := ts[|ts| - 1].value;
      if cpu in t.online then
        if irq < |t.rows| then NumberAt(t.rows[irq].values, ColumnOfCpu(t.online, cpu)) else 0
      else LastValue(ts[..|ts| - 1], cpu, irq)
  }

  /** The sum of the CPU's column in the last reading that had one, or zero. */
  function LastSum(ts: seq<Option<Table>>, cpu: nat): Word
    requires Orderly(ts)
  {
    if ts == [] then 0
    else
      var t := ts[|ts| - 1].value;
      if cpu in t.online then U64(ColumnSum(t.rows, |t.rows|, ColumnOfCpu(t.online, cpu)))
      else LastSum(ts[..|ts| - 1], cpu)
  }

  lemma StepAt(t: Table, cpu: nat, irq: nat, was: nat, prev: nat, total: Word, prevTotal: Word)
    requires Ascending(t.online)
    ensures t.Total(cpu, total, prevTotal)
            == if cpu in t.online then U64(ColumnSum(t.rows, |t.rows|, ColumnOfCpu(t.online, cpu))) else prevTotal
    ensures cpu !in t.online ==> t.Cell(cpu, irq, was, prev) == prev
    ensures cpu in t.online && irq < |t.rows| ==>
              t.Cell(cpu, irq, was, prev) == NumberAt(t.rows[irq].values, ColumnOfCpu(t.online, cpu))
  {
    if cpu in t.online {
      OnlineCpu(t, ColumnOfCpu(t.online, cpu), irq, was, total, prev, prevTotal);
    } else {
      OfflineCpu(t, cpu, irq, was, total, prev, prevTotal);
    }
  }

  /** After any run of orderly readings, each cell and total is the one that was read last while its CPU was online. */
  lemma {:induction false} RunKeepsLastRead(ts: seq<Option<Table>>, cpu: nat, irq: nat)
    requires Orderly(ts)
    ensures RunTotal(ts, cpu) == LastSum(ts, cpu)
    ensures RowThere(ts, cpu, irq) ==> RunCell(ts, cpu, irq) == LastValue(ts, cpu, irq)
  {
    if ts != [] {
      var n := |ts| - 1;
      RunKeepsLastRead(ts[..n], cpu, irq);
      var was := if n == 0 then 0 else RunCell(ts[..n - 1], cpu, irq);
      var total := if n == 0 then 0 else RunTotal(ts[..n - 1], cpu);
      StepAt(ts[n].value, cpu, irq, was, RunCell(ts[..n], cpu, irq), total, RunTotal(ts[..n], cpu));
      assert RowThere(ts, cpu, irq) ==> RowThere(ts[..n], cpu, irq);
    }
  }

  /** Reading k is the last one while the CPU was online, and its column is number j. */
  ghost predicate LastOnline(ts: seq<Option<Table>>, cpu: nat, k: nat, j: nat)
    requires Orderly(ts)
  {
    && k < |ts| && j < |ts[k].value.online| && ts[k].value.online[j] == cpu
    && forall m :: k < m < |ts| ==> cpu !in ts[m].value.online
  }

  lemma {:induction false} LastIs(ts: seq<Option<Table>>, cpu: nat, irq: nat, k: nat, j: nat)
    requires Orderly(ts) && LastOnline(ts, cpu, k, j)
    ensures LastSum(ts, cpu) == ColumnSum(ts[k].value.rows, |ts[k].value.rows|, j) % 0x1_0000_0000_0000_0000
    ensures var rows := ts[k].value.rows;
            LastValue(ts, cpu, irq) == if irq < |rows| then NumberAt(rows[irq].values, j) else 0
  {
    var n := |ts| - 1;
    if k < n {
      LastIs(ts[..n], cpu, irq, k, j);
    } else {
      assert ColumnOfCpu(ts[k].value.online, cpu) == j;
    }
  }

  lemma {:induction false} NeverOnline(ts: seq<Option<Table>>, cpu: nat, irq: nat)
    requires Orderly(ts) && forall m :: 0 <= m < |ts| ==> cpu !in ts[m].value.online
    ensures LastSum(ts, cpu) == 0 && LastValue(ts, cpu, irq) == 0
  {
    if ts != [] {
      assert cpu !in ts[|ts| - 1].value.online;
      NeverOnline(ts[..|ts| - 1], cpu, irq);
    }
  }

  /**
    After a run of orderly readings the buffers hold, for each CPU, the numbers of its column in
    the last reading that had one; for a CPU that was never online they hold zero.
   */
  lemma RunShowsLastColumn(ts: seq<Option<Table>>, cpu: nat, irq: nat, k: nat, j: nat)
    requires Orderly(ts)
    ensures LastOnline(ts, cpu, k, j) ==>
              RunTotal(ts, cpu) == ColumnSum(ts[k].value.rows, |ts[k].value.rows|, j) % 0x1_0000_0000_0000_0000
    ensures LastOnline(ts, cpu, k, j) && RowThere(ts, cpu, irq) ==>
              var numbers := ts[k].value.rows[irq].values;
              RunCell(ts, cpu, irq) == if j < |numbers| then numbers[j] % 0x1_0000_0000 else 0
    ensures (forall m :: 0 <= m < |ts| ==> cpu !in ts[m].value.online) ==>
              RunTotal(ts, cpu) == 0 && RunCell(ts, cpu, irq) == 0
  {
    RunKeepsLastRead(ts, cpu, irq);
    if LastOnline(ts, cpu, k, j) {
      LastIs(ts, cpu, irq, k, j);
      assert cpu in ts[k].value.online;
    }
    if forall m :: 0 <= m < |ts| ==> cpu !in ts[m].value.online { NeverOnline(ts, cpu, irq); }
  }
}
