/** What the reports of a run of mpstat show, in terms of the readings alone. */
module CpuRuns {
  import opened Wrappers
  import opened Arithmetic
  import opened Bitmaps
  import opened CpuStats
  import opened CpuSampler

  /** The CPU has a line in the reading, and it is not all zero. */
  predicate HasLine(r: Reading, i: nat) {
    i in r.cpus && !NoJiffies(r.cpus[i])
  }

  ghost predicate EverHadLine(rs: seq<Reading>, i: nat) {
    exists u :: 0 <= u < |rs| && HasLine(rs[u], i)
  }

  /** Reading u has the last line of the CPU. */
  ghost predicate LastLine(rs: seq<Reading>, i: nat, u: nat) {
    u < |rs| && HasLine(rs[u], i) && forall v :: u < v < |rs| ==> !HasLine(rs[v], i)
  }

  lemma ReadCpuIs(r: Reading, i: nat)
    ensures Total(ReadCpu(r, i)) != 0 <==> HasLine(r, i)
    ensures HasLine(r, i) ==> ReadCpu(r, i) == r.cpus[i]
  {
    TotalIs(ZERO);
    NoJiffiesIff(ReadCpu(r, i));
  }

  lemma {:induction false} PickIsLast(flags: seq<bool>, u: nat)
    requires flags != []
    ensures u < |flags| && flags[u] && (forall v :: u < v < |flags| ==> !flags[v]) ==> Pick(flags) == u
    ensures (exists v :: 0 <= v < |flags| && flags[v]) <==> flags[Pick(flags)]
  {
    var n := |flags| - 1;
    if n > 0 && !flags[n] {
      PickIsLast(flags[..n], u);
      assert forall v :: 0 <= v < n ==> flags[..n][v] == flags[v];
    }
  }

  /** An entry is not zero if the CPU ever had a line, and then holds its last one. */
  lemma LastNonZeroIs(rs: seq<Reading>, i: nat, u: nat)
    requires rs != []
    ensures Total(LastNonZero(rs, i)) != 0 <==> EverHadLine(rs, i)
    ensures LastLine(rs, i, u) ==> LastNonZero(rs, i) == ReadCpu(rs[u], i)
  {
    var flags := NonZeros(rs, i);
    LinesTell(rs, i, u, flags);
    PickIsLast(flags, u);
  }

  lemma LinesTell(rs: seq<Reading>, i: nat, u: nat, flags: seq<bool>)
    requires flags == NonZeros(rs, i)
    ensures EverHadLine(rs, i) <==> exists v :: 0 <= v < |rs| && flags[v]
    ensures LastLine(rs, i, u) ==> u < |rs| && flags[u] && forall v :: u < v < |rs| ==> !flags[v]
  {
    forall v | 0 <= v < |rs| ensures flags[v] == HasLine(rs[v], i) { ReadCpuIs(rs[v], i); }
    if EverHadLine(rs, i) {
      var v :| 0 <= v < |rs| && HasLine(rs[v], i);
      assert flags[v];
    }
  }

  lemma {:induction false} ShownAt(deltot: Word, itvs: seq<Word>, hidden: seq<bool>, selected: seq<bv8>, n: nat, k: nat)
    requires |itvs| == |hidden| && n <= |itvs| && |itvs| / 8 < |selected|
    ensures var m := ShownIntervals(deltot, itvs, hidden, selected, n);
            && (k in m <==> k <= n && Bit(selected, k) && (k > 0 ==> !hidden[k - 1]))
            && (k in m ==> m[k] == if k == 0 then deltot else itvs[k - 1])
  {
    if n > 0 { ShownAt(deltot, itvs, hidden, selected, n - 1, k); }
  }

  lemma HiddenIff(c: seq<Cpu>, p: seq<Cpu>, i: nat)
    requires |c| == |p| > 1 && i < |c|
    ensures Hiddens(c, p, false)[i] <==> Total(c[i]) == 0 || Total(p[i]) == 0
    ensures !Hiddens(c, p, false)[i] ==> Itvs(c, p)[i] == Interval(c[i], p[i])
  {
  }

  /** The CPU of an entry is shown if it has jiffies in both samples, with its own interval. */
  lemma ShownEntry(allC: Cpu, c: seq<Cpu>, allP: Cpu, p: seq<Cpu>, selected: seq<bv8>, i: nat, a: Cpu, b: Cpu)
    requires |c| == |p| > 1 && i < |c| && |c| / 8 < |selected| && a == c[i] && b == p[i]
    ensures var r := ReportOf(allC, c, allP, p, false, selected);
            && (i + 1 in r.shown <==> Bit(selected, i + 1) && Total(a) != 0 && Total(b) != 0)
            && (i + 1 in r.shown ==> r.shown[i + 1] == Interval(a, b))
  {
    HiddenIff(c, p, i);
    ShownAt(ReportOf(allC, c, allP, p, false, selected).deltot, Itvs(c, p), Hiddens(c, p, false), selected, |c|, i + 1);
  }

  lemma AllShown(allC: Cpu, c: seq<Cpu>, allP: Cpu, p: seq<Cpu>, selected: seq<bv8>)
    requires |c| == |p| && |c| / 8 < |selected|
    ensures var r := ReportOf(allC, c, allP, p, false, selected);
            (0 in r.shown <==> Bit(selected, 0)) && (0 in r.shown ==> r.shown[0] == r.deltot)
  {
    ShownAt(ReportOf(allC, c, allP, p, false, selected).deltot, Itvs(c, p), Hiddens(c, p, false), selected, |c|, 0);
  }

  /**
    Report t of a run on several CPUs shows a CPU if and only if it is selected, has a line in
    reading t, and had one before; with the interval from the last of those lines to this one.
    It shows CPU "all" if that is selected.
   */
  lemma RunShows(rs: seq<Reading>, n: nat, selected: seq<bv8>, t: nat, i: nat, u: nat)
    requires n > 1 && i < n && 1 <= t < |rs| && n / 8 < |selected|
    ensures var r := ReportNo(rs, n, selected, t);
            && (i + 1 in r.shown <==> Bit(selected, i + 1) && HasLine(rs[t], i) && EverHadLine(rs[..t], i))
            && (LastLine(rs[..t], i, u) && HasLine(rs[t], i) && Bit(selected, i + 1) ==>
                  i + 1 in r.shown && r.shown[i + 1] == Interval(rs[t].cpus[i], rs[u].cpus[i]))
            && (0 in r.shown <==> Bit(selected, 0)) && (0 in r.shown ==> r.shown[0] == r.deltot)
  {
    EntryOfRun(rs, n, selected, t, i);
    ReadCpuIs(rs[t], i);
    if u < t { ReadCpuIs(rs[u], i); }
    LastNonZeroIs(rs[..t], i, u);
  }

  lemma EntryOfRun(rs: seq<Reading>, n: nat, selected: seq<bv8>, t: nat, i: nat)
    requires n > 1 && i < n && 1 <= t < |rs| && n / 8 < |selected|
    ensures var r := ReportNo(rs, n, selected, t); var a, b := ReadCpu(rs[t], i), LastNonZero(rs[..t], i);
            && (i + 1 in r.shown <==> Bit(selected, i + 1) && Total(a) != 0 && Total(b) != 0)
            && (i + 1 in r.shown ==> r.shown[i + 1] == Interval(a, b))
            && (0 in r.shown <==> Bit(selected, 0)) && (0 in r.shown ==> r.shown[0] == r.deltot)
  {
    var c, p := ReadCpus(rs[t], n), LatestCpus(rs[..t], n);
    ShownEntry(rs[t].all, c, LatestAll(rs[..t]), p, selected, i, c[i], p[i]);
    AllShown(rs[t].all, c, LatestAll(rs[..t]), p, selected);
  }

  /** The average shows a CPU if and only if it is selected and had a line in the first reading; up to its last line. */
  lemma AverageShows(rs: seq<Reading>, n: nat, selected: seq<bv8>, i: nat, u: nat)
    requires n > 1 && i < n && rs != [] && n / 8 < |selected|
    ensures var r := AverageOf(rs, n, selected);
            && (i + 1 in r.shown <==> Bit(selected, i + 1) && HasLine(rs[0], i))
            && (LastLine(rs, i, u) && HasLine(rs[0], i) && Bit(selected, i + 1) ==>
                  i + 1 in r.shown && r.shown[i + 1] == Interval(rs[u].cpus[i], rs[0].cpus[i]))
  {
    EntryOfAverage(rs, n, selected, i);
    if u < |rs| { ReadCpuIs(rs[u], i); }
    ReadCpuIs(rs[0], i);
    LastNonZeroIs(rs, i, u);
    assert HasLine(rs[0], i) ==> EverHadLine(rs, i);
  }

  lemma EntryOfAverage(rs: seq<Reading>, n: nat, selected: seq<bv8>, i: nat)
    requires n > 1 && i < n && rs != [] && n / 8 < |selected|
    ensures var r := AverageOf(rs, n, selected); var a, b := LastNonZero(rs, i), ReadCpu(rs[0], i);
            && (i + 1 in r.shown <==> Bit(selected, i + 1) && Total(a) != 0 && Total(b) != 0)
            && (i + 1 in r.shown ==> r.shown[i + 1] == Interval(a, b))
  {
    var c, p := LatestCpus(rs, n), ReadCpus(rs[0], n);
    ShownEntry(LatestAll(rs), c, rs[0].all, p, selected, i, c[i], p[i]);
  }

  /** On a machine with one CPU the lines are compared as they are. */
  lemma OneCpuShows(rs: seq<Reading>, selected: seq<bv8>, t: nat, r: Report)
    requires 1 <= t < |rs| && 0 < |selected| && r == ReportNo(rs, 1, selected, t)
    ensures r.deltot == Interval(rs[t].all, rs[t - 1].all) && (1 in r.shown <==> Bit(selected, 1))
    ensures 1 in r.shown ==> r.shown[1] == Interval(ReadCpu(rs[t], 0), ReadCpu(rs[t - 1], 0))
  {
    var last := rs[t - 1];
    LatestOfOne(rs, t, last);
    OneEntry(rs[t].all, ReadCpus(rs[t], 1), last.all, ReadCpus(last, 1), selected, r, ReadCpu(rs[t], 0),
             ReadCpu(last, 0));
  }

  lemma LatestOfOne(rs: seq<Reading>, t: nat, last: Reading)
    requires 1 <= t < |rs| && last == rs[t - 1]
    ensures LatestCpus(rs[..t], 1) == ReadCpus(last, 1) && LatestAll(rs[..t]) == last.all
  {
  }

  lemma OneEntry(allC: Cpu, c: seq<Cpu>, allP: Cpu, p: seq<Cpu>, selected: seq<bv8>, r: Report, a: Cpu, b: Cpu)
    requires |c| == |p| == 1 && 0 < |selected| && a == c[0] && b == p[0]
    requires r == ReportOf(allC, c, allP, p, false, selected)
    ensures r.deltot == Interval(allC, allP) && (1 in r.shown <==> Bit(selected, 1))
    ensures 1 in r.shown ==> r.shown[1] == Interval(a, b)
  {
    ShownAt(r.deltot, Itvs(c, p), Hiddens(c, p, false), selected, 1, 1);
  }

  // ----- The interval of CPU "all"

  /** The sum of the intervals shown for CPUs, without entry 0. */
  function SumShown(shown: map<nat, Word>, n: nat): nat {
    if n == 0 then 0 else SumShown(shown, n - 1) + if n in shown then shown[n] else 0
  }

  lemma {:induction false} SumShownIsExact(deltot: Word, itvs: seq<Word>, hidden: seq<bool>, keep: seq<bool>,
                                           selected: seq<bv8>, m: map<nat, Word>, n: nat)
    requires |itvs| == |hidden| == |keep| && n <= |itvs| && |itvs| / 8 < |selected|
    requires (forall k :: 0 <= k <= |itvs| ==> Bit(selected, k))
    requires forall k :: 0 <= k < |itvs| ==> keep[k] == !hidden[k]
    requires m == ShownIntervals(deltot, itvs, hidden, selected, |itvs|)
    ensures SumShown(m, n) == Exact(itvs[..n], keep[..n])
  {
    if n > 0 {
      SumShownIsExact(deltot, itvs, hidden, keep, selected, m, n - 1);
      ShownAt(deltot, itvs, hidden, selected, |itvs|, n);
      assert itvs[..n][..n - 1] == itvs[..n - 1] && keep[..n][..n - 1] == keep[..n - 1];
    }
  }

  /** If all CPUs are selected, the interval of CPU "all" is the sum of those shown, modulo 2^64. */
  lemma AllIsSumOfShown(rs: seq<Reading>, n: nat, selected: seq<bv8>, t: nat)
    requires n > 1 && 1 <= t < |rs| && n / 8 < |selected| && forall k :: 0 <= k <= n ==> Bit(selected, k)
    ensures var r := ReportNo(rs, n, selected, t); r.deltot == SumShown(r.shown, n) % TWO_64
  {
    var r := ReportNo(rs, n, selected, t);
    var c, p := ReadCpus(rs[t], n), LatestCpus(rs[..t], n);
    var itvs, keep := Intervals(c, p), Shown(c, p, false);
    ShownIntervalsAddUp(c, p, false);
    SumOfAllShown(r.deltot, itvs, Hiddens(c, p, false), keep, selected, r.shown);
  }

  lemma SumOfAllShown(deltot: Word, itvs: seq<Word>, hidden: seq<bool>, keep: seq<bool>, selected: seq<bv8>,
                      m: map<nat, Word>)
    requires |itvs| == |hidden| == |keep| && |itvs| / 8 < |selected| && deltot == SumOf(itvs, keep)
    requires (forall k :: 0 <= k <= |itvs| ==> Bit(selected, k))
    requires forall k :: 0 <= k < |itvs| ==> keep[k] == !hidden[k]
    requires m == ShownIntervals(deltot, itvs, hidden, selected, |itvs|)
    ensures deltot == SumShown(m, |itvs|) % TWO_64
  {
    SumOfIsExact(itvs, keep);
    SumShownIsExact(deltot, itvs, hidden, keep, selected, m, |itvs|);
    assert itvs[..|itvs|] == itvs && keep[..|itvs|] == keep;
  }
}
