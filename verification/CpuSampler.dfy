/**
  The sampling engine of mpstat: two alternating sample buffers, a saved first sample, CPU "all" and
  the offline bitmap.
 */
module CpuSampler {
  import opened Wrappers
  import opened Arithmetic
  import opened Bitmaps
  import opened CpuStats

  // ----- What get_global_cpu_mpstats does to one CPU

  /** An offline CPU keeps its previous counters. */
  function Carried(c: Cpu, p: Cpu): Cpu {
    if Total(c) == 0 then p else c
  }

  /** A CPU without a reference is left out, except for statistics since boot. */
  predicate Skipped(p: Cpu, sinceBoot: bool) {
    Total(p) == 0 && !sinceBoot
  }

  function Reference(c: Cpu, p: Cpu, sinceBoot: bool): Cpu {
    if Skipped(p, sinceBoot) then p else Corrected(Carried(c, p), p)
  }

  predicate Offline(c: Cpu, p: Cpu, sinceBoot: bool) {
    Total(c) == 0 || Skipped(p, sinceBoot)
  }

  // ----- And to all of them: `c` and `p` are the CPUs of the two samples, without "all"

  function CarriedAll(c: seq<Cpu>, p: seq<Cpu>): seq<Cpu>
    requires |c| == |p|
  {
    seq(|c|, i requires 0 <= i < |c| => Carried(c[i], p[i]))
  }

  function References(c: seq<Cpu>, p: seq<Cpu>, sinceBoot: bool): seq<Cpu>
    requires |c| == |p|
  {
    seq(|c|, i requires 0 <= i < |c| => Reference(c[i], p[i], sinceBoot))
  }

  function Counted(p: seq<Cpu>, sinceBoot: bool): seq<bool> {
    seq(|p|, i requires 0 <= i < |p| => !Skipped(p[i], sinceBoot))
  }

  function Intervals(c: seq<Cpu>, p: seq<Cpu>): seq<Word>
    requires |c| == |p|
  {
    seq(|c|, i requires 0 <= i < |c| => Interval(Carried(c[i], p[i]), p[i]))
  }

  /** Where a turn of the loop writes: entry i of a sample is CPU number i - 1. */
  lemma TurnAt(a: seq<Cpu>, done: seq<Cpu>, todo: seq<Cpu>, i: nat)
    requires 1 <= i < |a| && |done| == |todo| == |a| - 1 && a[1..] == done[..i - 1] + todo[i - 1..]
    ensures a[i] == todo[i - 1]
    ensures a[i := done[i - 1]][1..] == done[..i] + todo[i..] && a[i := done[i - 1]][0] == a[0]
  {
    assert a[i] == a[1..][i - 1];
    assert a[i := done[i - 1]][1..] == a[1..][i - 1 := done[i - 1]];
  }

  /** Between the bitmaps `was` and `now`, exactly the bits of the offline CPUs below entry `n` are set. */
  ghost predicate Marked(was: seq<bv8>, now: seq<bv8>, c: seq<Cpu>, p: seq<Cpu>, sinceBoot: bool, n: nat) {
    && |was| == |now| && |c| == |p| && 1 <= n <= |c| + 1
    && forall k: nat :: k / 8 < |now| ==>
         (Bit(now, k) <==> Bit(was, k) || (1 <= k < n && Offline(c[k - 1], p[k - 1], sinceBoot)))
  }

  /**
    In the counters: a bit that was clear is set exactly for a CPU without jiffies in the new
    sample, or without jiffies in its reference if the statistics are not since boot.
   */
  ghost predicate OfflineBits(was: seq<bv8>, now: seq<bv8>, c: seq<Cpu>, p: seq<Cpu>, sinceBoot: bool)
    requires |c| == |p|
  {
    |was| == |now| && forall i: nat :: i / 8 < |now| ==>
      (Bit(now, i) <==> Bit(was, i) || (1 <= i <= |c| && (NoJiffies(c[i - 1]) || (!sinceBoot && NoJiffies(p[i - 1])))))
  }

  // ----- What is displayed adds up

  function Shown(c: seq<Cpu>, p: seq<Cpu>, sinceBoot: bool): seq<bool>
    requires |c| == |p|
  {
    seq(|c|, i requires 0 <= i < |c| => !Offline(c[i], p[i], sinceBoot))
  }

  /** The interval of CPU "all" is the sum of the intervals of the CPUs that are shown: an offline CPU adds nothing. */
  lemma {:induction false} ShownIntervalsAddUp(c: seq<Cpu>, p: seq<Cpu>, sinceBoot: bool)
    requires |c| == |p|
    ensures SumOf(Intervals(c, p), Counted(p, sinceBoot)) == SumOf(Intervals(c, p), Shown(c, p, sinceBoot))
  {
    if c != [] {
      var n := |c| - 1;
      ShownIntervalsAddUp(c[..n], p[..n], sinceBoot);
      assert Intervals(c, p)[..n] == Intervals(c[..n], p[..n]);
      assert Counted(p, sinceBoot)[..n] == Counted(p[..n], sinceBoot);
      assert Shown(c, p, sinceBoot)[..n] == Shown(c[..n], p[..n], sinceBoot);
      StandstillHasNoInterval(p[n]);
    }
  }

  // ----- Reports, on machines with one CPU and with several

  /** With one CPU nothing is carried forward. */
  function NextCpus(c: seq<Cpu>, p: seq<Cpu>): seq<Cpu>
    requires |c| == |p|
  {
    if |c| > 1 then CarriedAll(c, p) else c
  }

  /** The interval that each CPU is shown with, where it is shown. */
  function Itvs(c: seq<Cpu>, p: seq<Cpu>): seq<Word>
    requires |c| == |p|
  {
    if |c| > 1 then Intervals(c, p) else DirectIntervals(c, p)
  }

  function DirectIntervals(c: seq<Cpu>, p: seq<Cpu>): seq<Word>
    requires |c| == |p|
  {
    seq(|c|, i requires 0 <= i < |c| => Interval(c[i], p[i]))
  }

  predicate Hidden(c: seq<Cpu>, p: seq<Cpu>, sinceBoot: bool, i: nat)
    requires i < |c| == |p|
  {
    |c| > 1 && Offline(c[i], p[i], sinceBoot)
  }

  function Hiddens(c: seq<Cpu>, p: seq<Cpu>, sinceBoot: bool): seq<bool>
    requires |c| == |p|
  {
    seq(|c|, i requires 0 <= i < |c| => Hidden(c, p, sinceBoot, i))
  }

  /** The interval of CPU "all", whose own counters `allC` and `allP` matter with one CPU only. */
  function AllInterval(allC: Cpu, c: seq<Cpu>, allP: Cpu, p: seq<Cpu>, sinceBoot: bool): Word
    requires |c| == |p|
  {
    if |c| > 1 then SumOf(Intervals(c, p), Counted(p, sinceBoot)) else Interval(allC, allP)
  }

  /** The intervals shown up to entry `n`, by entry: 0 is CPU "all", i + 1 is CPU i. Only selected CPUs are shown. */
  function ShownIntervals(deltot: Word, itvs: seq<Word>, hidden: seq<bool>, selected: seq<bv8>, n: nat): map<nat, Word>
    requires |itvs| == |hidden| && n <= |itvs| && |itvs| / 8 < |selected|
  {
    if n == 0 then
      if Bit(selected, 0) then map[0 := deltot] else map[]
    else
      var m := ShownIntervals(deltot, itvs, hidden, selected, n - 1);
      if !Bit(selected, n) || hidden[n - 1] then m else m[n := itvs[n - 1]]
  }

  /** A report: the interval of CPU "all", and those that are shown. */
  datatype Report = Report(deltot: Word, shown: map<nat, Word>)

  function ReportOf(allC: Cpu, c: seq<Cpu>, allP: Cpu, p: seq<Cpu>, sinceBoot: bool, selected: seq<bv8>): Report
    requires |c| == |p| && |c| / 8 < |selected|
  {
    var deltot := AllInterval(allC, c, allP, p, sinceBoot);
    Report(deltot, ShownIntervals(deltot, Itvs(c, p), Hiddens(c, p, sinceBoot), selected, |c|))
  }

  lemma AllMattersToOneCpu(allC: Cpu, allP: Cpu, allC': Cpu, allP': Cpu, c: seq<Cpu>, p: seq<Cpu>, sinceBoot: bool,
                           selected: seq<bv8>)
    requires |c| == |p| > 1 && |c| / 8 < |selected|
    ensures ReportOf(allC, c, allP, p, sinceBoot, selected) == ReportOf(allC', c, allP', p, sinceBoot, selected)
  {
  }

  /** Each entry that may be shown answers with its interval. */
  ghost predicate Answers(a: seq<Cpu>, b: seq<Cpu>, itvs: seq<Word>, hidden: seq<bool>)
    requires |a| == |b| == |itvs| + 1 == |hidden| + 1
  {
    forall i :: 1 <= i <= |itvs| && !hidden[i - 1] ==> Interval(a[i], b[i]) == itvs[i - 1]
  }

  /** And asking corrects nothing. */
  ghost predicate Settled(a: seq<Cpu>, b: seq<Cpu>, hidden: seq<bool>)
    requires |a| == |b| == |hidden| + 1
  {
    forall i :: 1 <= i <= |hidden| && !hidden[i - 1] ==> Corrected(a[i], b[i]) == b[i]
  }

  lemma StableAnswer(c: seq<Cpu>, p: seq<Cpu>, sinceBoot: bool, i: nat)
    requires |c| == |p| > 1 && i < |c| && !Hiddens(c, p, sinceBoot)[i]
    ensures var a, b := CarriedAll(c, p)[i], References(c, p, sinceBoot)[i];
            Interval(a, b) == Itvs(c, p)[i] && Corrected(a, b) == b
  {
    IntervalIsStable(Carried(c[i], p[i]), p[i]);
  }

  lemma StableAnswers(a: seq<Cpu>, b: seq<Cpu>, c: seq<Cpu>, p: seq<Cpu>, sinceBoot: bool)
    requires |a| == |b| == |c| + 1 == |p| + 1 && |c| > 1
    requires a[1..] == CarriedAll(c, p) && b[1..] == References(c, p, sinceBoot)
    ensures Answers(a, b, Itvs(c, p), Hiddens(c, p, sinceBoot)) && Settled(a, b, Hiddens(c, p, sinceBoot))
  {
    forall i | 1 <= i <= |c| && !Hiddens(c, p, sinceBoot)[i - 1]
      ensures Interval(a[i], b[i]) == Itvs(c, p)[i - 1] && Corrected(a[i], b[i]) == b[i]
    {
      assert a[i] == a[1..][i - 1] && b[i] == b[1..][i - 1];
      StableAnswer(c, p, sinceBoot, i - 1);
    }
  }

  lemma OneCpuAnswers(a: seq<Cpu>, b: seq<Cpu>, c: seq<Cpu>, p: seq<Cpu>, sinceBoot: bool)
    requires |a| == |b| == |c| + 1 == |p| + 1 && |c| <= 1 && a[1..] == c && b[1..] == p
    ensures Answers(a, b, Itvs(c, p), Hiddens(c, p, sinceBoot))
  {
    if |c| == 1 { assert a[1] == a[1..][0] && b[1] == b[1..][0]; }
  }

  // ----- Readings

  /** A reading of /proc/stat: the line of all CPUs, and those of the online ones by number. */
  datatype Reading = Reading(all: Cpu, cpus: map<nat, Cpu>)

  /** CPU i in a reading; an offline CPU has no line, its entry stays zero. */
  function ReadCpu(r: Reading, i: nat): Cpu {
    if i in r.cpus then r.cpus[i] else ZERO
  }

  function ReadCpus(r: Reading, n: nat): seq<Cpu> {
    seq(n, i requires 0 <= i < n => ReadCpu(r, i))
  }

  function NonZero(r: Reading, i: nat): bool {
    Total(ReadCpu(r, i)) != 0
  }

  function NonZeros(rs: seq<Reading>, i: nat): seq<bool> {
    Each(rs, IsNonZero(i))
  }

  function IsNonZero(i: nat): Reading -> bool {
    (r: Reading) => NonZero(r, i)
  }

  function Each<T>(s: seq<T>, f: T -> bool): seq<bool> {
    seq(|s|, k requires 0 <= k < |s| => f(s[k]))
  }

  lemma EachStep<T>(s: seq<T>, x: T, f: T -> bool)
    ensures Each(s + [x], f) == Each(s, f) + [f(x)]
  {
  }

  /** The index of the last true flag, or 0. */
  function Pick(flags: seq<bool>): (u: nat)
    requires flags != []
    ensures u < |flags|
  {
    var n := |flags| - 1;
    if n == 0 || flags[n] then n else Pick(flags[..n])
  }

  /** The most recent reading of CPU i that is not zero, else the first reading. */
  function LastNonZero(rs: seq<Reading>, i: nat): Cpu
    requires rs != []
  {
    ReadCpu(rs[Pick(NonZeros(rs, i))], i)
  }

  function LastNonZeros(rs: seq<Reading>, n: nat): seq<Cpu>
    requires rs != []
  {
    seq(n, i requires 0 <= i < n => LastNonZero(rs, i))
  }

  /** What the CPUs of the current buffer hold after a run. */
  function LatestCpus(rs: seq<Reading>, n: nat): seq<Cpu>
    requires rs != []
  {
    if n > 1 then LastNonZeros(rs, n) else ReadCpus(rs[|rs| - 1], n)
  }

  function LatestAll(rs: seq<Reading>): Cpu
    requires rs != []
  {
    rs[|rs| - 1].all
  }

  /** Report t of a run: reading t against what the other buffer held before it. */
  function ReportNo(rs: seq<Reading>, n: nat, selected: seq<bv8>, t: nat): Report
    requires 1 <= t < |rs| && n / 8 < |selected|
  {
    ReportOf(rs[t].all, ReadCpus(rs[t], n), LatestAll(rs[..t]), LatestCpus(rs[..t], n), false, selected)
  }

  /** The reports of a run: one for each reading but the first. */
  ghost predicate ReportsAre(reports: seq<Report>, rs: seq<Reading>, n: nat, selected: seq<bv8>)
    requires n / 8 < |selected|
  {
    |reports| + 1 == |rs| && forall t {:trigger ReportNo(rs, n, selected, t)} :: 1 <= t < |rs| ==>
      reports[t - 1] == ReportNo(rs, n, selected, t)
  }

  /** The values of a function from 1 up to m - 1. */
  ghost predicate Lists<T>(s: seq<T>, m: nat, f: nat -> T) {
    |s| + 1 == m && forall t {:trigger f(t)} :: 1 <= t < m ==> s[t - 1] == f(t)
  }

  lemma ListsAreReports(reports: seq<Report>, rs: seq<Reading>, n: nat, selected: seq<bv8>, f: nat -> Report)
    requires n / 8 < |selected| && Lists(reports, |rs|, f)
    requires forall t {:trigger ReportNo(rs, n, selected, t)} :: 1 <= t < |rs| ==> f(t) == ReportNo(rs, n, selected, t)
    ensures ReportsAre(reports, rs, n, selected)
  {
  }

  /** The average compares the latest counters with the first sample. */
  function AverageOf(rs: seq<Reading>, n: nat, selected: seq<bv8>): Report
    requires rs != [] && n / 8 < |selected|
  {
    ReportOf(LatestAll(rs), LatestCpus(rs, n), rs[0].all, ReadCpus(rs[0], n), false, selected)
  }

  /** The buffers after one more reading. */
  lemma CarriedIsLastNonZero(rs: seq<Reading>, r: Reading, n: nat)
    requires rs != []
    ensures CarriedAll(ReadCpus(r, n), LastNonZeros(rs, n)) == LastNonZeros(rs + [r], n)
  {
    forall i | 0 <= i < n ensures Carried(ReadCpu(r, i), LastNonZero(rs, i)) == LastNonZero(rs + [r], i) {
      CarriedStep(rs, r, i);
    }
  }

  lemma CarriedStep(rs: seq<Reading>, r: Reading, i: nat)
    requires rs != []
    ensures LastNonZero(rs + [r], i) == Carried(ReadCpu(r, i), LastNonZero(rs, i))
  {
    EachStep(rs, r, IsNonZero(i));
  }

  lemma LatestStep(rs: seq<Reading>, t: nat, n: nat)
    requires 0 < t < |rs|
    ensures LatestCpus(rs[..t + 1], n) == NextCpus(ReadCpus(rs[t], n), LatestCpus(rs[..t], n))
    ensures LatestAll(rs[..t + 1]) == rs[t].all
  {
    assert rs[..t + 1] == rs[..t] + [rs[t]];
    if n > 1 { CarriedIsLastNonZero(rs[..t], rs[t], n); }
  }

  /** With an empty bitmap to start from, the bits are those of the CPUs that are hidden. */
  lemma BitsAreHidden(was: seq<bv8>, now: seq<bv8>, c: seq<Cpu>, p: seq<Cpu>, sinceBoot: bool)
    requires |c| == |p| > 1 && |c| / 8 < |now| && Marked(was, now, c, p, sinceBoot, |c| + 1)
    requires forall k: nat :: k / 8 < |was| ==> !Bit(was, k)
    ensures forall i :: 1 <= i <= |c| ==> (Bit(now, i) <==> Hiddens(c, p, sinceBoot)[i - 1])
  {
  }

  class Sampler {
    const cpuNr: nat
    /** The current and previous sample in turn, and the first one; entry 0 is CPU "all". */
    const stCpu: seq<array<Cpu>>

    ghost predicate Valid()
    {
      && |stCpu| == 3
      && (forall k :: 0 <= k < 3 ==> stCpu[k].Length == cpuNr + 1)
      && (forall j, k :: 0 <= j < k < 3 ==> stCpu[j] != stCpu[k])
    }

    constructor (cpuNr: nat)
      ensures Valid() && this.cpuNr == cpuNr && fresh(stCpu[0]) && fresh(stCpu[1]) && fresh(stCpu[2])
      ensures stCpu[0][..] == stCpu[1][..] == stCpu[2][..] == seq(cpuNr + 1, _ => ZERO)
    {
      this.cpuNr := cpuNr;
      var a := new Cpu[cpuNr + 1](_ => ZERO);
      var b := new Cpu[cpuNr + 1](_ => ZERO);
      var c := new Cpu[cpuNr + 1](_ => ZERO);
      stCpu := [a, b, c];
    }

    /** The bitmap is an object of its own. */
    ghost predicate Apart(offline: array<bv8>)
      requires Valid()
    {
      forall k :: 0 <= k < 3 ==> stCpu[k] as object != offline as object
    }

    /** One turn of the loop of get_global_cpu_mpstats: CPU i, and whether it counts for "all". */
    method GlobalTurn(i: nat, prev: nat, curr: nat, sinceBoot: bool, offline: array<bv8>)
      returns (counts: bool, itv: Word)
      requires Valid() && prev < 3 && curr < 3 && prev != curr && 1 <= i <= cpuNr && i / 8 < offline.Length
      requires Apart(offline)
      modifies stCpu[prev], stCpu[curr], offline
      ensures stCpu[curr][..] == old(stCpu[curr][..])[i := Carried(old(stCpu[curr][i]), old(stCpu[prev][i]))]
      ensures stCpu[prev][..]
              == old(stCpu[prev][..])[i := Reference(old(stCpu[curr][i]), old(stCpu[prev][i]), sinceBoot)]
      ensures counts == !Skipped(old(stCpu[prev][i]), sinceBoot)
      ensures counts ==> itv == Interval(Carried(old(stCpu[curr][i]), old(stCpu[prev][i])), old(stCpu[prev][i]))
      ensures forall k: nat :: k / 8 < offline.Length ==>
                (Bit(offline[..], k) <==>
                   old(Bit(offline[..], k)) || (k == i && Offline(old(stCpu[curr][i]), old(stCpu[prev][i]), sinceBoot)))
    {
      var a, b := stCpu[curr], stCpu[prev];
      itv := 0;
      if Total(a[i]) == 0 {
        a[i] := b[i];
        SetBit(offline, i);
      }
      if Total(b[i]) == 0 && !sinceBoot {
        SetBit(offline, i);
        return false, 0;
      }
      counts := true;
      itv := Interval(a[i], b[i]);
      b[i] := Corrected(a[i], b[i]);
    }

    /** The CPUs of a sample, without CPU "all". */
    ghost function Cpus(k: nat): (s: seq<Cpu>)
      requires Valid() && k < 3
      reads stCpu
      ensures |s| == cpuNr
    {
      stCpu[k][1..]
    }

    /** The loop of get_global_cpu_mpstats has turned over the CPUs up to number i - 1. */
    ghost predicate Turned(i: nat, prev: nat, curr: nat, sinceBoot: bool, c: seq<Cpu>, p: seq<Cpu>, deltot: Word)
      requires Valid() && prev < 3 && curr < 3
      reads stCpu
    {
      && 1 <= i <= cpuNr + 1 && |c| == |p| == cpuNr
      && Cpus(curr) == CarriedAll(c, p)[..i - 1] + c[i - 1..]
      && Cpus(prev) == References(c, p, sinceBoot)[..i - 1] + p[i - 1..]
      && stCpu[curr][0] == Sum(CarriedAll(c, p)[..i - 1], Counted(p, sinceBoot)[..i - 1])
      && stCpu[prev][0] == Sum(References(c, p, sinceBoot)[..i - 1], Counted(p, sinceBoot)[..i - 1])
      && deltot == SumOf(Intervals(c, p)[..i - 1], Counted(p, sinceBoot)[..i - 1])
    }

    /** One turn, and its contribution to "all". */
    method AddTurn(i: nat, prev: nat, curr: nat, sinceBoot: bool, offline: array<bv8>, deltot: Word, ghost c: seq<Cpu>,
                   ghost p: seq<Cpu>)
      returns (deltot': Word)
      requires Valid() && prev < 3 && curr < 3 && prev != curr && i <= cpuNr && i / 8 < offline.Length && Apart(offline)
      requires Turned(i, prev, curr, sinceBoot, c, p, deltot)
      modifies stCpu[prev], stCpu[curr], offline
      ensures Turned(i + 1, prev, curr, sinceBoot, c, p, deltot')
      ensures forall k: nat :: k / 8 < offline.Length ==>
                (Bit(offline[..], k) <==>
                   old(Bit(offline[..], k)) || (k == i && Offline(c[i - 1], p[i - 1], sinceBoot)))
    {
      ghost var cs, ps, keep, itvs := CarriedAll(c, p), References(c, p, sinceBoot), Counted(p, sinceBoot),
        Intervals(c, p);
      ghost var a, b := stCpu[curr][..], stCpu[prev][..];
      TurnAt(a, cs, c, i);
      TurnAt(b, ps, p, i);
      var counts, itv := GlobalTurn(i, prev, curr, sinceBoot, offline);
      assert stCpu[curr][..] == a[i := cs[i - 1]] && stCpu[prev][..] == b[i := ps[i - 1]];
      SumStep(cs, keep, i - 1);
      SumStep(ps, keep, i - 1);
      SumOfStep(itvs, keep, i - 1);
      deltot' := deltot;
      if counts {
        deltot' := Plus(deltot, itv);
        AddToAll(curr, i);
        AddToAll(prev, i);
      }
    }

    /** add_cpu_stats, from entry i to CPU "all". */
    method AddToAll(k: nat, i: nat)
      requires Valid() && k < 3 && 1 <= i <= cpuNr
      modifies stCpu[k]
      ensures Cpus(k) == old(Cpus(k)) && stCpu[k][0] == Add(old(stCpu[k][0]), old(Cpus(k))[i - 1])
    {
      stCpu[k][0] := Add(stCpu[k][0], stCpu[k][i]);
    }

    method ClearAll(k: nat)
      requires Valid() && k < 3
      modifies stCpu[k]
      ensures Cpus(k) == old(Cpus(k)) && stCpu[k][0] == ZERO
    {
      stCpu[k][0] := ZERO;
    }

    lemma TurnsStart(prev: nat, curr: nat, sinceBoot: bool, c: seq<Cpu>, p: seq<Cpu>)
      requires Valid() && prev < 3 && curr < 3 && Cpus(curr) == c && Cpus(prev) == p
      requires stCpu[curr][0] == stCpu[prev][0] == ZERO
      ensures Turned(1, prev, curr, sinceBoot, c, p, 0)
    {
      assert CarriedAll(c, p)[..0] == [] && References(c, p, sinceBoot)[..0] == [] && Counted(p, sinceBoot)[..0] == [];
      assert Intervals(c, p)[..0] == [];
    }

    /** get_global_cpu_mpstats. */
    method GetGlobalCpuStats(prev: nat, curr: nat, sinceBoot: bool, offline: array<bv8>) returns (deltot: Word)
      requires Valid() && prev < 3 && curr < 3 && prev != curr && cpuNr / 8 < offline.Length && Apart(offline)
      modifies stCpu[prev], stCpu[curr], offline
      ensures cpuNr > 1 ==> Turned(cpuNr + 1, prev, curr, sinceBoot, old(Cpus(curr)), old(Cpus(prev)), deltot)
      ensures cpuNr > 1 ==>
                Marked(old(offline[..]), offline[..], old(Cpus(curr)), old(Cpus(prev)), sinceBoot, cpuNr + 1)
      ensures cpuNr > 1 ==>
                OfflineBits(old(offline[..]), offline[..], old(Cpus(curr)), old(Cpus(prev)), sinceBoot)
      ensures cpuNr <= 1 ==>
                && stCpu[curr][..] == old(stCpu[curr][..]) && offline[..] == old(offline[..])
                && stCpu[prev][..] == old(stCpu[prev][..])[0 := Corrected(stCpu[curr][0], old(stCpu[prev][0]))]
                && deltot == Interval(stCpu[curr][0], old(stCpu[prev][0]))
    {
      if cpuNr <= 1 {
        deltot := Interval(stCpu[curr][0], stCpu[prev][0]);
        stCpu[prev][0] := Corrected(stCpu[curr][0], stCpu[prev][0]);
        return;
      }
      ghost var c, p := Cpus(curr), Cpus(prev);
      ClearAll(curr);
      ClearAll(prev);
      TurnsStart(prev, curr, sinceBoot, c, p);
      deltot := AllTurns(prev, curr, sinceBoot, offline, c, p);
    }

    /** The loop of get_global_cpu_mpstats. */
    method AllTurns(prev: nat, curr: nat, sinceBoot: bool, offline: array<bv8>, ghost c: seq<Cpu>, ghost p: seq<Cpu>)
      returns (deltot: Word)
      requires Valid() && prev < 3 && curr < 3 && prev != curr && cpuNr / 8 < offline.Length && Apart(offline)
      requires Turned(1, prev, curr, sinceBoot, c, p, 0)
      modifies stCpu[prev], stCpu[curr], offline
      ensures Turned(cpuNr + 1, prev, curr, sinceBoot, c, p, deltot)
      ensures Marked(old(offline[..]), offline[..], c, p, sinceBoot, cpuNr + 1)
    {
      deltot := 0;
      for i := 1 to cpuNr + 1
        invariant Turned(i, prev, curr, sinceBoot, c, p, deltot)
        invariant Marked(old(offline[..]), offline[..], c, p, sinceBoot, i)
      {
        deltot := AddTurn(i, prev, curr, sinceBoot, offline, deltot, c, p);
      }
    }

    /** read_stat_cpu, on a parsed reading. */
    method ReadStatCpu(k: nat, r: Reading)
      requires Valid() && k < 3
      requires forall i :: 0 <= i < cpuNr ==> Cpus(k)[i] == ZERO
      modifies stCpu[k]
      ensures Cpus(k) == ReadCpus(r, cpuNr) && stCpu[k][0] == r.all
    {
      stCpu[k][0] := r.all;
      assert Cpus(k) == old(Cpus(k));
      for i := 0 to cpuNr
        invariant stCpu[k][0] == r.all
        invariant forall j {:trigger Cpus(k)[j]} :: 0 <= j < cpuNr ==>
                    Cpus(k)[j] == if j < i then ReadCpu(r, j) else ZERO
      {
        if i in r.cpus {
          ghost var was := Cpus(k);
          stCpu[k][i + 1] := r.cpus[i];
          assert Cpus(k) == was[i := r.cpus[i]];
        }
      }
    }

    /** memset of a sample buffer. */
    method Clear(k: nat)
      requires Valid() && k < 3
      modifies stCpu[k]
      ensures forall i :: 0 <= i < cpuNr ==> Cpus(k)[i] == ZERO
    {
      for i := 0 to cpuNr + 1
        invariant forall j :: 0 <= j < i ==> stCpu[k][j] == ZERO
      {
        stCpu[k][i] := ZERO;
      }
    }

    /** On SMP machines the first reading of CPU "all" is replaced by the sum of the CPUs. */
    method SumFirst()
      requires Valid()
      modifies stCpu[0]
      ensures Cpus(0) == old(Cpus(0))
      ensures stCpu[0][0] == if cpuNr > 1 then Sum(Cpus(0), seq(cpuNr, _ => true)) else old(stCpu[0][0])
    {
      if cpuNr > 1 {
        ghost var keep := seq(cpuNr, _ => true);
        stCpu[0][0] := ZERO;
        for i := 1 to cpuNr + 1
          invariant Cpus(0) == old(Cpus(0)) && stCpu[0][0] == Sum(Cpus(0)[..i - 1], keep[..i - 1])
        {
          SumStep(Cpus(0), keep, i - 1);
          AddToAll(0, i);
        }
        assert Cpus(0)[..cpuNr] == Cpus(0) && keep[..cpuNr] == keep;
      }
    }

    method Copy(from: nat, to: nat)
      requires Valid() && from < 3 && to < 3 && from != to
      modifies stCpu[to]
      ensures stCpu[to][..] == stCpu[from][..]
    {
      for i := 0 to cpuNr + 1
        invariant stCpu[to][..i] == stCpu[from][..i]
      {
        stCpu[to][i] := stCpu[from][i];
      }
      assert stCpu[to][..] == stCpu[to][..cpuNr + 1] && stCpu[from][..] == stCpu[from][..cpuNr + 1];
    }

    /**
      The CPUs of a report (write_stats_core): the interval of CPU "all", and of each CPU that is
      selected and not offline.
     */
    method WriteStats(prev: nat, curr: nat, sinceBoot: bool, selected: seq<bv8>) returns (report: Report)
      requires Valid() && prev < 3 && curr < 3 && prev != curr && 1 <= cpuNr <= 8192 && cpuNr / 8 < |selected|
      modifies stCpu[prev], stCpu[curr]
      ensures Cpus(curr) == NextCpus(old(Cpus(curr)), old(Cpus(prev)))
      ensures cpuNr == 1 ==> stCpu[curr][0] == old(stCpu[curr][0])
      ensures report == ReportOf(old(stCpu[curr][0]), old(Cpus(curr)), old(stCpu[prev][0]), old(Cpus(prev)),
                                 sinceBoot, selected)
    {
      var offline := new bv8[1025](_ => 0);
      ghost var c, p := Cpus(curr), Cpus(prev);
      assert forall k: nat :: k / 8 < offline.Length ==> !Bit(offline[..], k);
      var deltot := GetGlobal(prev, curr, sinceBoot, offline);
      var shown := ShowCpus(prev, curr, offline, selected, deltot, Itvs(c, p), Hiddens(c, p, sinceBoot));
      report := Report(deltot, shown);
    }

    /** get_global_cpu_mpstats with an empty bitmap, and what the display functions can rely on. */
    method GetGlobal(prev: nat, curr: nat, sinceBoot: bool, offline: array<bv8>) returns (deltot: Word)
      requires Valid() && prev < 3 && curr < 3 && prev != curr && cpuNr / 8 < offline.Length && Apart(offline)
      requires forall k: nat :: k / 8 < offline.Length ==> !Bit(offline[..], k)
      modifies stCpu[prev], stCpu[curr], offline
      ensures Cpus(curr) == NextCpus(old(Cpus(curr)), old(Cpus(prev)))
      ensures cpuNr <= 1 ==> stCpu[curr][0] == old(stCpu[curr][0])
      ensures deltot == AllInterval(old(stCpu[curr][0]), old(Cpus(curr)), old(stCpu[prev][0]), old(Cpus(prev)),
                                    sinceBoot)
      ensures Answers(stCpu[curr][..], stCpu[prev][..], Itvs(old(Cpus(curr)), old(Cpus(prev))),
                      Hiddens(old(Cpus(curr)), old(Cpus(prev)), sinceBoot))
      ensures forall i :: 1 <= i <= cpuNr ==>
                (Bit(offline[..], i) <==> Hiddens(old(Cpus(curr)), old(Cpus(prev)), sinceBoot)[i - 1])
    {
      ghost var c, p := Cpus(curr), Cpus(prev);
      deltot := GetGlobalCpuStats(prev, curr, sinceBoot, offline);
      if cpuNr > 1 {
        TurnsDone(prev, curr, sinceBoot, c, p, deltot);
        TurnedAnswers(prev, curr, sinceBoot, c, p, deltot);
        BitsAreHidden(old(offline[..]), offline[..], c, p, sinceBoot);
      } else {
        assert stCpu[curr][..][1..] == c && stCpu[prev][..][1..] == p;
        OneCpuAnswers(stCpu[curr][..], stCpu[prev][..], c, p, sinceBoot);
      }
    }

    /** After the last turn the loop has done all CPUs. */
    lemma TurnsDone(prev: nat, curr: nat, sinceBoot: bool, c: seq<Cpu>, p: seq<Cpu>, deltot: Word)
      requires Valid() && prev < 3 && curr < 3 && Turned(cpuNr + 1, prev, curr, sinceBoot, c, p, deltot)
      ensures Cpus(curr) == CarriedAll(c, p) && Cpus(prev) == References(c, p, sinceBoot)
      ensures stCpu[curr][0] == Sum(CarriedAll(c, p), Counted(p, sinceBoot))
      ensures stCpu[prev][0] == Sum(References(c, p, sinceBoot), Counted(p, sinceBoot))
      ensures deltot == SumOf(Intervals(c, p), Counted(p, sinceBoot))
    {
      var n, cs, ps, keep, itvs := cpuNr, CarriedAll(c, p), References(c, p, sinceBoot), Counted(p, sinceBoot),
        Intervals(c, p);
      assert cs[..n] == cs && ps[..n] == ps && keep[..n] == keep && itvs[..n] == itvs && c[n..] == [] && p[n..] == [];
    }

    /** Shows the CPUs that are selected and not offline, each with its interval asked for once more. */
    method ShowCpus(prev: nat, curr: nat, offline: array<bv8>, selected: seq<bv8>, deltot: Word,
                    ghost want: seq<Word>, ghost hidden: seq<bool>)
      returns (itvs: map<nat, Word>)
      requires Valid() && prev < 3 && curr < 3 && prev != curr && cpuNr / 8 < offline.Length && Apart(offline)
      requires |want| == |hidden| == cpuNr && cpuNr / 8 < |selected|
      requires Answers(stCpu[curr][..], stCpu[prev][..], want, hidden)
      requires forall i :: 1 <= i <= cpuNr ==> (Bit(offline[..], i) <==> hidden[i - 1])
      modifies stCpu[prev]
      ensures Settled(stCpu[curr][..], old(stCpu[prev][..]), hidden) ==> stCpu[prev][..] == old(stCpu[prev][..])
      ensures itvs == ShownIntervals(deltot, want, hidden, selected, cpuNr)
    {
      ghost var a, b := stCpu[curr][..], stCpu[prev][..];
      itvs := ShowAll(prev, curr, offline, selected, deltot, Settled(a, b, hidden), a, b, want, hidden);
    }

    /** The loop that shows the CPUs. */
    method ShowAll(prev: nat, curr: nat, offline: array<bv8>, selected: seq<bv8>, deltot: Word, ghost settled: bool,
                   ghost a: seq<Cpu>, ghost b: seq<Cpu>, ghost want: seq<Word>, ghost hidden: seq<bool>)
      returns (itvs: map<nat, Word>)
      requires Valid() && prev < 3 && curr < 3 && prev != curr && cpuNr / 8 < offline.Length && Apart(offline)
      requires |want| == |hidden| == cpuNr && cpuNr / 8 < |selected| && a == stCpu[curr][..] && b == stCpu[prev][..]
      requires Answers(a, b, want, hidden) && (settled ==> Settled(a, b, hidden))
      requires forall i :: 1 <= i <= cpuNr ==> (Bit(offline[..], i) <==> hidden[i - 1])
      modifies stCpu[prev]
      ensures settled ==> stCpu[prev][..] == b
      ensures itvs == ShownIntervals(deltot, want, hidden, selected, cpuNr)
    {
      itvs := if Bit(selected, 0) then map[0 := deltot] else map[];
      for i := 1 to cpuNr + 1
        invariant settled ==> stCpu[prev][..] == b
        invariant forall k :: i <= k <= cpuNr ==> stCpu[prev][k] == b[k]
        invariant itvs == ShownIntervals(deltot, want, hidden, selected, i - 1)
      {
        itvs := ShowCpu(i, prev, curr, offline, selected, itvs, settled, a, b, want, hidden);
      }
    }

    method ShowCpu(i: nat, prev: nat, curr: nat, offline: array<bv8>, selected: seq<bv8>, itvs: map<nat, Word>,
                   ghost settled: bool, ghost a: seq<Cpu>, ghost b: seq<Cpu>, ghost want: seq<Word>,
                   ghost hidden: seq<bool>)
      returns (itvs': map<nat, Word>)
      requires Valid() && prev < 3 && curr < 3 && prev != curr && 1 <= i <= cpuNr
      requires cpuNr / 8 < offline.Length && cpuNr / 8 < |selected| && Apart(offline)
      requires |want| == |hidden| == cpuNr && |a| == |b| == cpuNr + 1 && Answers(a, b, want, hidden)
      requires settled ==> Settled(a, b, hidden)
      requires stCpu[curr][i] == a[i] && stCpu[prev][i] == b[i]
      requires Bit(offline[..], i) <==> hidden[i - 1]
      modifies stCpu[prev]
      ensures settled ==> stCpu[prev][..] == old(stCpu[prev][..])
      ensures forall k :: 0 <= k <= cpuNr && k != i ==> stCpu[prev][k] == old(stCpu[prev][k])
      ensures itvs' == if !Bit(selected, i) || hidden[i - 1] then itvs else itvs[i := want[i - 1]]
    {
      if !Bit(selected, i) || Bit(offline[..], i) {
        return itvs;
      }
      var itv := AskAgain(i, prev, curr);
      itvs' := itvs[i := itv];
    }

    /** get_per_cpu_interval, which may correct the reference. */
    method AskAgain(i: nat, prev: nat, curr: nat) returns (itv: Word)
      requires Valid() && prev < 3 && curr < 3 && prev != curr && 1 <= i <= cpuNr
      modifies stCpu[prev]
      ensures stCpu[prev][..] == old(stCpu[prev][..])[i := Corrected(stCpu[curr][i], old(stCpu[prev][i]))]
      ensures itv == Interval(stCpu[curr][i], old(stCpu[prev][i]))
    {
      itv := Interval(stCpu[curr][i], stCpu[prev][i]);
      stCpu[prev][i] := Corrected(stCpu[curr][i], stCpu[prev][i]);
    }

    lemma TurnedAnswers(prev: nat, curr: nat, sinceBoot: bool, c: seq<Cpu>, p: seq<Cpu>, deltot: Word)
      requires Valid() && cpuNr > 1 && prev < 3 && curr < 3 && Turned(cpuNr + 1, prev, curr, sinceBoot, c, p, deltot)
      ensures Answers(stCpu[curr][..], stCpu[prev][..], Itvs(c, p), Hiddens(c, p, sinceBoot))
      ensures Settled(stCpu[curr][..], stCpu[prev][..], Hiddens(c, p, sinceBoot))
    {
      ghost var a, b := stCpu[curr][..], stCpu[prev][..];
      assert Cpus(curr) == a[1..] && Cpus(prev) == b[1..];
      assert a[1..] == CarriedAll(c, p) && b[1..] == References(c, p, sinceBoot);
      StableAnswers(a, b, c, p, sinceBoot);
    }

    /** Where the buffers stand after a run: `curr` holds the latest counters, and slot 2 the first sample. */
    ghost predicate RanTo(rs: seq<Reading>, first: Reading, curr: nat)
      requires Valid() && rs != []
      reads stCpu
    {
      && curr < 2
      && Cpus(curr) == LatestCpus(rs, cpuNr) && (cpuNr == 1 ==> stCpu[curr][0] == LatestAll(rs))
      && Cpus(2) == ReadCpus(first, cpuNr)
      && stCpu[2][0] == if cpuNr > 1 then Sum(Cpus(2), seq(cpuNr, _ => true)) else first.all
    }

    /**
      rw_mpstat_loop on the readings of a run with an interval: the first sample is saved, then
      the two buffers take turns. Whatever corrections the reports make to their references, with
      several CPUs each one's current counters are its last reading that was not zero, and each
      report shows the intervals from those.
     */
    method RwLoop(rs: seq<Reading>, selected: seq<bv8>) returns (curr: nat, reports: seq<Report>)
      requires Valid() && 1 <= cpuNr <= 8192 && rs != [] && cpuNr / 8 < |selected|
      requires forall k, i :: 0 <= k < 3 && 0 <= i < cpuNr ==> Cpus(k)[i] == ZERO
      modifies stCpu[0], stCpu[1], stCpu[2]
      ensures RanTo(rs, rs[0], curr)
      ensures ReportsAre(reports, rs, cpuNr, selected)
    {
      ReadStatCpu(0, rs[0]);
      SumFirst();
      Copy(0, 2);
      curr, reports := 0, [];
      FirstSample(rs);
      ghost var f := (t: nat) => if 1 <= t < |rs| then ReportNo(rs, cpuNr, selected, t) else Report(0, map[]);
      for t := 1 to |rs|
        invariant RanTo(rs[..t], rs[0], curr) && Lists(reports, t, f)
      {
        var report;
        curr, report := NextTurn(curr, rs[t], selected, rs, t);
        reports := reports + [report];
      }
      assert rs[..|rs|] == rs;
      ListsAreReports(reports, rs, cpuNr, selected, f);
    }

    /** Reading t goes into the buffer that is not the current one. */
    method NextTurn(curr: nat, r: Reading, selected: seq<bv8>, ghost rs: seq<Reading>, ghost t: nat)
      returns (next: nat, report: Report)
      requires Valid() && 1 <= cpuNr <= 8192 && cpuNr / 8 < |selected|
      requires 1 <= t < |rs| && r == rs[t] && RanTo(rs[..t], rs[0], curr)
      modifies stCpu[0], stCpu[1]
      ensures RanTo(rs[..t + 1], rs[0], next) && report == ReportNo(rs, cpuNr, selected, t)
    {
      LatestStep(rs, t, cpuNr);
      next := if curr == 0 then 1 else 0;
      report := NextSample(curr, next, r, selected, rs[..t]);
    }

    lemma FirstSample(rs: seq<Reading>)
      requires Valid() && rs != [] && Cpus(0) == Cpus(2) == ReadCpus(rs[0], cpuNr) && stCpu[0][0] == stCpu[2][0]
      requires stCpu[0][0] == if cpuNr > 1 then Sum(Cpus(0), seq(cpuNr, _ => true)) else rs[0].all
      ensures RanTo(rs[..1], rs[0], 0)
    {
      assert rs[..1] == [rs[0]];
      assert LastNonZeros(rs[..1], cpuNr) == ReadCpus(rs[0], cpuNr);
    }

    /** One sample and its report: buffer `curr` is overwritten, `prev` is the reference. */
    method NextSample(prev: nat, curr: nat, r: Reading, selected: seq<bv8>, ghost was: seq<Reading>)
      returns (report: Report)
      requires Valid() && prev < 2 && curr < 2 && prev != curr && 1 <= cpuNr <= 8192 && cpuNr / 8 < |selected|
      requires was != [] && Cpus(prev) == LatestCpus(was, cpuNr) && (cpuNr == 1 ==> stCpu[prev][0] == LatestAll(was))
      modifies stCpu[0], stCpu[1]
      ensures Cpus(curr) == NextCpus(ReadCpus(r, cpuNr), LatestCpus(was, cpuNr))
      ensures cpuNr == 1 ==> stCpu[curr][0] == r.all
      ensures report == ReportOf(r.all, ReadCpus(r, cpuNr), LatestAll(was), LatestCpus(was, cpuNr), false, selected)
    {
      ghost var p, all := Cpus(prev), stCpu[prev][0];
      Clear(curr);
      ReadStatCpu(curr, r);
      assert Cpus(prev) == p && stCpu[prev][0] == all && stCpu[prev] in {stCpu[0], stCpu[1]};
      if cpuNr > 1 { AllMattersToOneCpu(r.all, all, r.all, LatestAll(was), ReadCpus(r, cpuNr), p, false, selected); }
      report := WriteStats(prev, curr, false, selected);
    }

    /** A whole run. There is no average before the first interval has passed. */
    method Run(rs: seq<Reading>, selected: seq<bv8>) returns (reports: seq<Report>, average: Option<Report>)
      requires Valid() && 1 <= cpuNr <= 8192 && rs != [] && cpuNr / 8 < |selected|
      requires forall k, i :: 0 <= k < 3 && 0 <= i < cpuNr ==> Cpus(k)[i] == ZERO
      modifies stCpu[0], stCpu[1], stCpu[2]
      ensures ReportsAre(reports, rs, cpuNr, selected)
      ensures average == if |rs| == 1 then None
                         else Some(AverageOf(rs, cpuNr, selected))
    {
      var curr;
      curr, reports := RwLoop(rs, selected);
      if |rs| == 1 {
        return reports, None;
      }
      average := Average(rs, curr, selected);
    }

    method Average(ghost rs: seq<Reading>, curr: nat, selected: seq<bv8>) returns (average: Option<Report>)
      requires Valid() && 1 <= cpuNr <= 8192 && rs != [] && cpuNr / 8 < |selected| && RanTo(rs, rs[0], curr)
      modifies stCpu[0], stCpu[1], stCpu[2]
      ensures average == Some(AverageOf(rs, cpuNr, selected))
    {
      assert curr == 0 || curr == 1;
      var report := WriteStats(2, curr, false, selected);
      average := Some(report);
    }
  }
}
