/** CPU counters of mpstat: their 64-bit sums, and the interval between two samples of one CPU. */
module CpuStats {
  import opened Arithmetic
  import opened Folds

  /** A stats_cpu: ten unsigned 64-bit counters. */
  datatype Cpu = Cpu(user: Word, nice: Word, sys: Word, idle: Word, iowait: Word, steal: Word, hardirq: Word,
                     softirq: Word, guest: Word, guestNice: Word)

  const ZERO: Cpu := Cpu(0, 0, 0, 0, 0, 0, 0, 0, 0, 0)

  function Plus(a: nat, b: nat): Word {
    U64(a + b)
  }

  lemma PlusLaws(a: nat, b: nat, c: nat)
    ensures Plus(Plus(a, b), c) == Plus(a, Plus(b, c)) == U64(a + b + c)
    ensures Plus(a, b) == Plus(b, a)
  {
    assert (a + b) % TWO_64 == a + b - ((a + b) / TWO_64) * TWO_64;
    assert (b + c) % TWO_64 == b + c - ((b + c) / TWO_64) * TWO_64;
    ModShift(a + b + c, (a + b) / TWO_64);
    ModShift(a + b + c, (b + c) / TWO_64);
  }

  lemma ModShift(x: int, k: int)
    ensures (x - k * TWO_64) % TWO_64 == x % TWO_64
  {
  }

  /** add_cpu_stats. */
  function Add(d: Cpu, s: Cpu): Cpu {
    Cpu(Plus(d.user, s.user), Plus(d.nice, s.nice), Plus(d.sys, s.sys), Plus(d.idle, s.idle), Plus(d.iowait, s.iowait),
        Plus(d.steal, s.steal), Plus(d.hardirq, s.hardirq), Plus(d.softirq, s.softirq), Plus(d.guest, s.guest),
        Plus(d.guestNice, s.guestNice))
  }

  /** The jiffies that tell a CPU that was read from one that is offline; guest time is not added. */
  function Total(c: Cpu): Word {
    U64(Added([c.user, c.nice, c.sys, c.idle, c.iowait, c.hardirq, c.steal, c.softirq]))
  }

  /** The exact sum of some counters. */
  function Added(s: seq<Word>): nat {
    if s == [] then 0 else Added(s[..|s| - 1]) + s[|s| - 1]
  }

  lemma AddedStep(s: seq<Word>, x: Word)
    ensures Added(s + [x]) == Added(s) + x
  {
    assert (s + [x])[..|s|] == s;
  }

  lemma AddedOfFour(a: Word, b: Word, c: Word, d: Word)
    ensures Added([a, b, c, d]) == a + b + c + d
  {
    AddedStep([], a);
    AddedStep([a], b);
    AddedStep([a, b], c);
    AddedStep([a, b, c], d);
    assert [] + [a] == [a] && [a] + [b] == [a, b] && [a, b] + [c] == [a, b, c] && [a, b, c] + [d] == [a, b, c, d];
  }

  lemma AddedOfEight(s: seq<Word>)
    requires |s| == 8
    ensures Added(s) == s[0] as int + s[1] as int + s[2] as int + s[3] as int + s[4] as int + s[5] as int
                        + s[6] as int + s[7] as int
  {
    AddedOfFour(s[0], s[1], s[2], s[3]);
    assert s[..4] == [s[0], s[1], s[2], s[3]];
    AddedStep(s[..4], s[4]);
    AddedStep(s[..5], s[5]);
    AddedStep(s[..6], s[6]);
    AddedStep(s[..7], s[7]);
    assert s[..4] + [s[4]] == s[..5] && s[..5] + [s[5]] == s[..6] && s[..6] + [s[6]] == s[..7];
    assert s[..7] + [s[7]] == s;
  }

  lemma TotalIs(c: Cpu)
    ensures Total(c) == (c.user + c.nice + c.sys + c.idle + c.iowait + c.hardirq + c.steal + c.softirq) % TWO_64
  {
    AddedOfEight([c.user, c.nice, c.sys, c.idle, c.iowait, c.hardirq, c.steal, c.softirq]);
  }

  // ----- get_per_cpu_interval

  const NEAR_OVERFLOW: nat := 0xFFFF_FFFF_FFFF_FFFF - 0x7FFFF

  function Minus(a: nat, b: nat): Word {
    U64(a - b)
  }

  /** How much the guest part of a counter ran ahead of the counter itself. */
  function GuestShift(c: nat, cGuest: nat, p: nat, pGuest: nat): nat {
    if c >= p && Minus(c, cGuest) < Minus(p, pGuest) then Minus(Minus(p, pGuest), Minus(c, cGuest)) else 0
  }

  function Delta(prev: nat, curr: nat): nat {
    if curr > prev then curr - prev else 0
  }

  /** The reference sample as get_per_cpu_interval leaves it: only idle and iowait may change. */
  function Corrected(c: Cpu, p: Cpu): (r: Cpu)
    ensures r == p.(idle := r.idle, iowait := r.iowait)
  {
    var iowait :=
      if c.iowait < p.iowait && p.iowait < NEAR_OVERFLOW then
        if c.idle > p.idle || p.idle >= NEAR_OVERFLOW then c.iowait else 0
      else p.iowait;
    var idle := if c.idle < p.idle && p.idle < NEAR_OVERFLOW then 0 else p.idle;
    p.(idle := idle, iowait := iowait)
  }

  /** The interval that get_per_cpu_interval returns, from the corrected reference. */
  function Interval(c: Cpu, p: Cpu): Word {
    var q := Corrected(c, p);
    var shift := GuestShift(c.user, c.guest, p.user, p.guest) + GuestShift(c.nice, c.guestNice, p.nice, p.guestNice);
    U64(shift + Delta(q.user, c.user) + Delta(q.nice, c.nice) + Delta(q.sys, c.sys) + Delta(q.iowait, c.iowait)
        + Delta(q.idle, c.idle) + Delta(q.steal, c.steal) + Delta(q.hardirq, c.hardirq) + Delta(q.softirq, c.softirq))
  }

  /** Asking again, as the display functions do, corrects nothing more and gives the same interval. */
  lemma IntervalIsStable(c: Cpu, p: Cpu)
    ensures Corrected(c, Corrected(c, p)) == Corrected(c, p)
    ensures Interval(c, Corrected(c, p)) == Interval(c, p)
  {
  }

  /** A CPU whose counters stand still has an interval of zero, and its reference is not corrected. */
  lemma StandstillHasNoInterval(p: Cpu)
    ensures Interval(p, p) == 0 && Corrected(p, p) == p
  {
  }

  /** No counter of jiffies went back, and the guest part of user and nice did not run ahead. */
  predicate Ascends(c: Cpu, p: Cpu) {
    && c.user >= p.user && c.nice >= p.nice && c.sys >= p.sys && c.idle >= p.idle && c.iowait >= p.iowait
    && c.steal >= p.steal && c.hardirq >= p.hardirq && c.softirq >= p.softirq
    && Minus(c.user, c.guest) >= Minus(p.user, p.guest) && Minus(c.nice, c.guestNice) >= Minus(p.nice, p.guestNice)
  }

  /** The interval of a CPU whose counters ascend is the difference of its totals, and nothing is corrected. */
  lemma IntervalIsElapsed(c: Cpu, p: Cpu)
    requires Ascends(c, p)
    ensures Corrected(c, p) == p && Interval(c, p) == Minus(Total(c), Total(p))
  {
    var sc := c.user + c.nice + c.sys + c.idle + c.iowait + c.hardirq + c.steal + c.softirq;
    var sp := p.user + p.nice + p.sys + p.idle + p.iowait + p.hardirq + p.steal + p.softirq;
    assert Interval(c, p) == U64(sc - sp);
    TotalIs(c);
    TotalIs(p);
    DifferenceOfWords(sc, sp);
  }

  lemma DifferenceOfWords(a: nat, b: nat)
    ensures U64(U64(a) - U64(b)) == U64(a - b)
  {
    ModShift(a - b, a / TWO_64 - b / TWO_64);
    assert U64(a) - U64(b) == a - b - (a / TWO_64 - b / TWO_64) * TWO_64;
  }

  // ----- What an interval counts, counter by counter

  const ULLONG_NEAR: nat := 0xFFFF_FFFF_FFF8_0000

  /** User time counts as the larger of its own advance and that of the guest time within it. */
  function GuestGain(c: Word, cGuest: Word, p: Word, pGuest: Word): int {
    if c < p then 0 else if cGuest - pGuest > c - p then cGuest - pGuest else c - p
  }

  /** What goes back counts nothing. */
  function Gain(c: Word, p: Word): int {
    if c < p then 0 else c - p
  }

  /** An idle counter that goes back has restarted from zero, unless it was about to overflow. */
  function IdleGain(c: Cpu, p: Cpu): int {
    if c.idle >= p.idle then c.idle - p.idle else if p.idle < ULLONG_NEAR then c.idle else 0
  }

  /**
    An iowait counter that goes back was inaccurate if idle has advanced meanwhile, and counts
    nothing; else it has restarted.
   */
  function IowaitGain(c: Cpu, p: Cpu): int {
    if c.iowait >= p.iowait then c.iowait - p.iowait
    else if p.iowait < ULLONG_NEAR && c.idle <= p.idle < ULLONG_NEAR then c.iowait
    else 0
  }

  /** What becomes of the reference. */
  lemma CorrectedParts(c: Cpu, p: Cpu)
    ensures Corrected(c, p).idle == if c.idle < p.idle < ULLONG_NEAR then 0 else p.idle
    ensures Corrected(c, p).iowait
            == if c.iowait >= p.iowait || p.iowait >= ULLONG_NEAR then p.iowait
               else if c.idle > p.idle || p.idle >= ULLONG_NEAR then c.iowait
               else 0
    ensures Delta(Corrected(c, p).idle, c.idle) == IdleGain(c, p)
    ensures Delta(Corrected(c, p).iowait, c.iowait) == IowaitGain(c, p)
  {
  }

  /** An interval is the sum of what its counters gained. */
  lemma IntervalCounts(c: Cpu, p: Cpu)
    requires c.guest <= c.user && p.guest <= p.user && c.guestNice <= c.nice && p.guestNice <= p.nice
    ensures Interval(c, p)
            == (GuestGain(c.user, c.guest, p.user, p.guest) + GuestGain(c.nice, c.guestNice, p.nice, p.guestNice)
                + Gain(c.sys, p.sys) + IowaitGain(c, p) + IdleGain(c, p) + Gain(c.steal, p.steal)
                + Gain(c.hardirq, p.hardirq) + Gain(c.softirq, p.softirq)) % TWO_64
  {
    CorrectedParts(c, p);
    IntervalIsSum(c, p, Corrected(c, p));
  }

  lemma IntervalIsSum(c: Cpu, p: Cpu, q: Cpu)
    requires q == Corrected(c, p)
    ensures Interval(c, p)
            == (GuestShift(c.user, c.guest, p.user, p.guest) + Delta(p.user, c.user)
                + (GuestShift(c.nice, c.guestNice, p.nice, p.guestNice) + Delta(p.nice, c.nice))
                + Gain(c.sys, p.sys) + Delta(q.iowait, c.iowait) + Delta(q.idle, c.idle) + Gain(c.steal, p.steal)
                + Gain(c.hardirq, p.hardirq) + Gain(c.softirq, p.softirq)) % TWO_64
  {
  }

  /** The eight counters of jiffies sum to zero, modulo 2^64. */
  predicate NoJiffies(c: Cpu) {
    Added([c.user, c.nice, c.sys, c.idle, c.iowait, c.hardirq, c.steal, c.softirq]) % TWO_64 == 0
  }

  lemma NoJiffiesIff(c: Cpu)
    ensures NoJiffies(c) <==> Total(c) == 0
  {
  }

  // ----- Sums over CPUs

  function AddWords(a: Word, b: Word): Word {
    Plus(a, b)
  }

  /** The sum of the samples `s[i]` with `keep[i]`. */
  function Sum(s: seq<Cpu>, keep: seq<bool>): Cpu
    requires |keep| == |s|
  {
    Fold(s, keep, ZERO, Add)
  }

  /** The same for plain 64-bit numbers. */
  function SumOf(s: seq<Word>, keep: seq<bool>): Word
    requires |keep| == |s|
  {
    Fold(s, keep, 0, AddWords)
  }

  lemma SumStep(s: seq<Cpu>, keep: seq<bool>, n: nat)
    requires |keep| == |s| && n < |s|
    ensures Sum(s[..n + 1], keep[..n + 1]) == if keep[n] then Add(Sum(s[..n], keep[..n]), s[n])
                                              else Sum(s[..n], keep[..n])
  {
    assert s[..n + 1][..n] == s[..n] && keep[..n + 1][..n] == keep[..n];
  }

  lemma SumOfStep(s: seq<Word>, keep: seq<bool>, n: nat)
    requires |keep| == |s| && n < |s|
    ensures SumOf(s[..n + 1], keep[..n + 1]) == if keep[n] then Plus(SumOf(s[..n], keep[..n]), s[n])
                                                else SumOf(s[..n], keep[..n])
  {
    assert s[..n + 1][..n] == s[..n] && keep[..n + 1][..n] == keep[..n];
  }

  /** The exact sum of numbers, without a word size. */
  function Exact(s: seq<Word>, keep: seq<bool>): nat
    requires |keep| == |s|
  {
    if s == [] then 0
    else
      var n := |s| - 1;
      Exact(s[..n], keep[..n]) + if keep[n] then s[n] else 0
  }

  /** A field of a sample. */
  type Field = Cpu -> Word

  function Column(s: seq<Cpu>, f: Field): seq<Word> {
    seq(|s|, i requires 0 <= i < |s| => f(s[i]))
  }

  /** A sum kept in 64 bits is the exact sum modulo 2^64. */
  lemma {:induction false} SumOfIsExact(s: seq<Word>, keep: seq<bool>)
    requires |keep| == |s|
    ensures SumOf(s, keep) == U64(Exact(s, keep))
  {
    if s != [] {
      var n := |s| - 1;
      SumOfIsExact(s[..n], keep[..n]);
      if keep[n] {
        PlusLaws(Exact(s[..n], keep[..n]), s[n], 0);
        PlusOfWord(Exact(s[..n], keep[..n]), s[n]);
      }
    }
  }

  lemma PlusOfWord(a: nat, b: nat)
    ensures Plus(U64(a), b) == U64(a + b)
  {
    ModShift(a + b, a / TWO_64);
    assert U64(a) == a - (a / TWO_64) * TWO_64;
  }

  /** A field that add_cpu_stats adds up. */
  ghost predicate Additive(f: Field) {
    f(ZERO) == 0 && forall a, b :: f(Add(a, b)) == Plus(f(a), f(b))
  }

  lemma EveryFieldIsAdditive()
    ensures Additive((c: Cpu) => c.user) && Additive((c: Cpu) => c.nice) && Additive((c: Cpu) => c.sys)
    ensures Additive((c: Cpu) => c.idle) && Additive((c: Cpu) => c.iowait) && Additive((c: Cpu) => c.steal)
    ensures Additive((c: Cpu) => c.hardirq) && Additive((c: Cpu) => c.softirq)
    ensures Additive((c: Cpu) => c.guest) && Additive((c: Cpu) => c.guestNice)
  {
  }

  /** Each field of a sum of samples is the sum of that field, modulo 2^64. */
  lemma {:induction false} SumIsFieldwise(s: seq<Cpu>, keep: seq<bool>, f: Field)
    requires |keep| == |s| && Additive(f)
    ensures f(Sum(s, keep)) == U64(Exact(Column(s, f), keep))
  {
    SumOfIsExact(Column(s, f), keep);
    FieldOfSum(s, keep, f);
  }

  lemma {:induction false} FieldOfSum(s: seq<Cpu>, keep: seq<bool>, f: Field)
    requires |keep| == |s| && Additive(f)
    ensures f(Sum(s, keep)) == SumOf(Column(s, f), keep)
  {
    if s != [] {
      var n := |s| - 1;
      FieldOfSum(s[..n], keep[..n], f);
      assert Column(s, f)[..n] == Column(s[..n], f);
    }
  }
}
