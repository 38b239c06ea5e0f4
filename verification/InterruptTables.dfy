/** Which numbers of the interrupt file mpstat takes for which CPU, line by line. */
module InterruptTables {
  import opened Wrappers
  import opened Interrupts

  /** The line starts with a CPU that fits the buffers. */
  predicate NamesCpu(l: Line, cpuNr: nat) {
    |l.cpus| > 0 && l.cpus[0] % 0x1_0000_0000 < cpuNr
  }

  /** Line h is the first one that names a CPU. */
  predicate IsHeader(lines: seq<Line>, cpuNr: nat, h: nat) {
    h < |lines| && NamesCpu(lines[h], cpuNr) && forall i :: 0 <= i < h ==> !NamesCpu(lines[i], cpuNr)
  }

  /** The number of lines with a colon. */
  function Colons(lines: seq<Line>): nat {
    if lines == [] then 0 else (if lines[0].row.Some? then 1 else 0) + Colons(lines[1..])
  }

  lemma {:induction false} HeaderAtIs(lines: seq<Line>, cpuNr: nat, h: nat)
    requires IsHeader(lines, cpuNr, h)
    ensures HeaderAt(lines, cpuNr) == h
  {
    if h > 0 {
      assert !NamesCpu(lines[0], cpuNr);
      HeaderAtIs(lines[1..], cpuNr, h - 1);
    }
  }

  lemma {:induction false} NoHeader(lines: seq<Line>, cpuNr: nat)
    requires forall i :: 0 <= i < |lines| ==> !NamesCpu(lines[i], cpuNr)
    ensures HeaderAt(lines, cpuNr) == |lines|
  {
    if lines != [] {
      assert !NamesCpu(lines[0], cpuNr);
      NoHeader(lines[1..], cpuNr);
    }
  }

  /** The CPUs that are taken are the first numbers of the line, up to one that does not fit. */
  lemma {:induction false} TakenIs(cpus: seq<int>, cpuNr: nat, room: nat)
    ensures var r := Taken(cpus, cpuNr, room);
            && |r| <= |cpus| && (forall j :: 0 <= j < |r| ==> r[j] == cpus[j] % 0x1_0000_0000)
            && (|r| < |cpus| && |r| < room ==> cpus[|r|] % 0x1_0000_0000 >= cpuNr)
  {
    if !(cpus == [] || room == 0 || cpus[0] % 0x1_0000_0000 >= cpuNr) { TakenIs(cpus[1..], cpuNr, room - 1); }
  }

  /** The rows are those of the lines with a colon, in order, as many as there are interrupts. */
  lemma {:induction false} FirstRowsAre(lines: seq<Line>, icNr: nat, t: nat)
    ensures |FirstRows(lines, icNr)| == if Colons(lines) < icNr then Colons(lines) else icNr
    ensures t < |lines| && lines[t].row.Some? && Colons(lines[..t]) < icNr ==>
              var irq := Colons(lines[..t]);
              irq < |FirstRows(lines, icNr)| && FirstRows(lines, icNr)[irq] == lines[t].row.value
  {
    if lines != [] && icNr > 0 {
      FirstRowsAre(lines[1..], if lines[0].row.Some? then icNr - 1 else icNr, if t > 0 then t - 1 else 0);
      if 0 < t < |lines| { assert lines[..t][1..] == lines[1..][..t - 1]; }
    }
  }

  /** What is read of a file: the CPUs of its header and the lines with a colon below it. */
  lemma ReadIs(lines: seq<Line>, cpuNr: nat, icNr: nat, h: nat, t: nat)
    requires IsHeader(lines, cpuNr, h) && h < t < |lines| && lines[t].row.Some?
    ensures var table := Read(lines, cpuNr, icNr); var irq := Colons(lines[h + 1..t]);
            && 0 < |table.online| <= |lines[h].cpus|
            && (forall j :: 0 <= j < |table.online| ==> table.online[j] == lines[h].cpus[j] % 0x1_0000_0000)
            && (irq < icNr ==> irq < |table.rows| && table.rows[irq] == lines[t].row.value)
  {
    HeaderAtIs(lines, cpuNr, h);
    TakenIs(lines[h].cpus, cpuNr, cpuNr);
    var below := lines[h + 1..];
    FirstRowsAre(below, icNr, t - h - 1);
    assert below[..t - h - 1] == lines[h + 1..t];
  }

  /** From the file to the cell: number j of a line below the header is that of the header's CPU number j. */
  lemma CellOfLine(lines: seq<Line>, cpuNr: nat, icNr: nat, h: nat, t: nat, j: nat, was: nat, prev: nat)
    requires IsHeader(lines, cpuNr, h) && h < t < |lines| && lines[t].row.Some? && Colons(lines[h + 1..t]) < icNr
    requires var online := Read(lines, cpuNr, icNr).online; Ascending(online) && j < |online| && j < |lines[h].cpus|
    ensures var cpu := lines[h].cpus[j] % 0x1_0000_0000; var numbers := lines[t].row.value.values;
            Read(lines, cpuNr, icNr).Cell(cpu, Colons(lines[h + 1..t]), was, prev)
              == if j < |numbers| then numbers[j] % 0x1_0000_0000 else 0
  {
    ReadIs(lines, cpuNr, icNr, h, t);
    OnlineCpu(Read(lines, cpuNr, icNr), j, Colons(lines[h + 1..t]), was, 0, prev, 0);
  }
}
