/** The lines of iostat's report, counter by counter: which devices have one, and what it is computed from. */
module DeviceLines {
  import opened Wrappers
  import opened Arithmetic
  import opened DeviceStats
  import opened GroupPass

  // ----- One line

  /** Some operation was ever counted. */
  predicate Active(s: Io) {
    s.rdIos + s.wrIos + s.dcIos + s.flIos > 0
  }

  /** A device with these samples is not left out of the report. */
  predicate InReport(curr: Io, prev: Io, opts: Options) {
    && (opts.unfiltered || Active(curr))
    && (opts.zeroOmit ==> curr.rdIos != prev.rdIos || curr.wrIos != prev.wrIos || curr.dcIos != prev.dcIos
                          || curr.flIos != prev.flIos)
  }

  /** The operations did not go down, or some sector counter that was not zero did not. */
  predicate KeepsReference(curr: Io, prev: Io) {
    || (curr.rdIos + curr.wrIos + curr.dcIos + curr.flIos) % 0x1_0000_0000_0000_0000
         >= (prev.rdIos + prev.wrIos + prev.dcIos + prev.flIos) % 0x1_0000_0000_0000_0000
    || 0 < prev.rdSectors <= curr.rdSectors
    || 0 < prev.wrSectors <= curr.wrSectors
    || 0 < prev.dcSectors <= curr.dcSectors
  }

  /** The line is that of these samples; without a reference it is computed since boot. */
  predicate IsLine(l: Line, name: string, tp: int, curr: Io, prev: Io) {
    && l.name == name && l.tp == tp && l.curr == curr
    && l.prev == if KeepsReference(curr, prev) then prev else Io(0, 0, 0, 0, 0, 0, 0, 0, 0, 0, 0, 0, 0, 0, 0, 0, 0)
  }

  predicate LineIs(l: Option<Line>, name: string, tp: int, curr: Io, prev: Io, opts: Options) {
    && (l.Some? <==> InReport(curr, prev, opts))
    && (l.Some? ==> IsLine(l.value, name, tp, curr, prev))
  }

  /** A device that is no group. */
  lemma LineOfDevice(e: seq<Entry>, i: nat, opts: Options)
    requires i < |e| && e[i].tp < 3
    ensures var l, hidden := LineOf(e, i, opts), opts.totalOnly && exists g :: 0 <= g < i && e[g].tp >= 3;
            if e[i].exist && !hidden then LineIs(l, e[i].name, e[i].tp, e[i].curr, e[i].prev, opts) else l == None
  {
    assert BehindGroup(e, i) <==> exists g :: 0 <= g < i && e[g].tp >= 3 by {
      if BehindGroup(e, i) {
        var g :| 0 <= g < i && e[g].IsGroup();
        assert e[g].tp >= 3;
      }
      if exists g :: 0 <= g < i && e[g].tp >= 3 {
        var g :| 0 <= g < i && e[g].tp >= 3;
        assert e[g].IsGroup();
      }
    }
  }

  // ----- Groups

  /** The members of group g are the devices behind it up to b: the next group, or the end of the list. */
  predicate MembersEnd(e: seq<Entry>, g: nat, b: nat) {
    && g < b <= |e| && e[g].tp >= 3
    && (forall k :: g < k < b ==> e[k].tp < 3)
    && (b < |e| ==> e[b].tp >= 3)
  }

  /** The exact sum of a counter over the devices from a up to b that exist and are not filtered out. */
  function MemberSum(e: seq<Entry>, a: nat, b: nat, f: Counter, unfiltered: bool): nat
    requires a <= b <= |e|
  {
    if a == b then 0
    else
      var d := e[b - 1];
      MemberSum(e, a, b - 1, f, unfiltered) + if d.exist && (unfiltered || Active(d.curr)) then Get(d.curr, f) else 0
  }

  function MemberCount(e: seq<Entry>, a: nat, b: nat): nat
    requires a <= b <= |e|
  {
    if a == b then 0 else MemberCount(e, a, b - 1) + if e[b - 1].exist then 1 else 0
  }

  /** What group g has counted when its members have been passed; in the further parts of a report nothing. */
  ghost predicate Totals(e: seq<Entry>, g: nat, b: nat, opts: Options, sum: Io)
    requires g < b <= |e|
  {
    forall f :: Get(sum, f) == if opts.first then MemberSum(e, g + 1, b, f, opts.unfiltered) % Width(f) else 0
  }

  lemma MembersStep(e: seq<Entry>, a: nat, b: nat, f: Counter, unfiltered: bool, s: seq<Io>, d: Entry)
    requires a < b <= |e| && d == e[b - 1] && s == Members(e, a, b - 1, unfiltered)
    ensures Exact(Members(e, a, b, unfiltered), f)
            == Exact(s, f) + if d.exist && (unfiltered || Active(d.curr)) then Get(d.curr, f) else 0
  {
    var passes := d.exist && (unfiltered || Active(d.curr));
    assert Members(e, a, b, unfiltered) == s + if passes then [d.curr] else [];
    if !passes { assert s + [] == s; }
  }

  lemma {:induction false} MembersSumTo(e: seq<Entry>, a: nat, b: nat, f: Counter, unfiltered: bool)
    requires a <= b <= |e|
    ensures Exact(Members(e, a, b, unfiltered), f) == MemberSum(e, a, b, f, unfiltered)
    ensures Existing(e, a, b) == MemberCount(e, a, b)
  {
    if a < b {
      MembersSumTo(e, a, b - 1, f, unfiltered);
      MembersStep(e, a, b, f, unfiltered, Members(e, a, b - 1, unfiltered), e[b - 1]);
    }
  }

  lemma SameCounters(a: Io, b: Io)
    requires forall f :: Get(a, f) == Get(b, f)
    ensures a == b
  {
    assert Get(a, RdSectors) == Get(b, RdSectors) && Get(a, WrSectors) == Get(b, WrSectors);
    assert Get(a, DcSectors) == Get(b, DcSectors) && Get(a, RdIos) == Get(b, RdIos);
    assert Get(a, RdMerges) == Get(b, RdMerges) && Get(a, WrIos) == Get(b, WrIos);
    assert Get(a, WrMerges) == Get(b, WrMerges) && Get(a, DcIos) == Get(b, DcIos);
    assert Get(a, DcMerges) == Get(b, DcMerges) && Get(a, FlIos) == Get(b, FlIos);
    assert Get(a, RdTicks) == Get(b, RdTicks) && Get(a, WrTicks) == Get(b, WrTicks);
    assert Get(a, DcTicks) == Get(b, DcTicks) && Get(a, FlTicks) == Get(b, FlTicks);
    assert Get(a, IosPgr) == Get(b, IosPgr) && Get(a, TotTicks) == Get(b, TotTicks);
    assert Get(a, RqTicks) == Get(b, RqTicks);
  }

  lemma {:induction false} EndOfMembers(e: seq<Entry>, g: nat, b: nat)
    requires MembersEnd(e, g, b)
    ensures EndOf(e, g + 1) == b
  {
    EndOfEnds(e, g + 1);
    var n := EndOf(e, g + 1);
    assert n >= b && (b < n ==> !e[b].IsGroup());
  }

  lemma GroupCounter(e: seq<Entry>, g: nat, b: nat, opts: Options, f: Counter)
    requires MembersEnd(e, g, b)
    ensures Get(CurrAt(e, g, |e|, opts), f)
            == if opts.first then MemberSum(e, g + 1, b, f, opts.unfiltered) % Width(f) else 0
    ensures TpAt(e, g, |e|, opts) == e[g].tp + if opts.first then MemberCount(e, g + 1, b) else 0
  {
    EndOfMembers(e, g, b);
    MembersSumTo(e, g + 1, b, f, opts.unfiltered);
    if opts.first { GroupShowsItsMembers(e, g, opts, f); }
  }

  /** A group: its line is computed from the sums of its members, and its type has counted the existing ones. */
  lemma LineOfGroup(e: seq<Entry>, g: nat, b: nat, opts: Options, sum: Io)
    requires MembersEnd(e, g, b) && Totals(e, g, b, opts, sum)
    ensures var count := if opts.first then MemberCount(e, g + 1, b) else 0;
            LineIs(LineOf(e, g, opts), e[g].name, e[g].tp + count, sum, e[g].prev, opts)
  {
    var curr := CurrAt(e, g, |e|, opts);
    forall f ensures Get(curr, f) == Get(sum, f) { GroupCounter(e, g, b, opts, f); }
    SameCounters(curr, sum);
    GroupCounter(e, g, b, opts, RdIos);
  }

  // ----- The report

  /** The number of lines of the devices in the first k places of the order. */
  function Tally(e: seq<Entry>, order: seq<nat>, k: nat, opts: Options): nat
    requires k <= |order| && forall j :: 0 <= j < |order| ==> order[j] < |e|
  {
    if k == 0 then 0 else Tally(e, order, k - 1, opts) + if LineOf(e, order[k - 1], opts).Some? then 1 else 0
  }

  lemma {:induction false} LineInOrder(e: seq<Entry>, order: seq<nat>, n: nat, k: nat, opts: Options)
    requires k < n <= |order| && forall j :: 0 <= j < |order| ==> order[j] < |e|
    ensures |Lines(e, order[..n], opts)| == Tally(e, order, n, opts)
    ensures var l, p := LineOf(e, order[k], opts), Tally(e, order, k, opts);
            l.Some? ==> p < |Lines(e, order[..n], opts)| && Lines(e, order[..n], opts)[p] == l.value
    decreases n
  {
    assert order[..n][..n - 1] == order[..n - 1];
    if n > 1 { LineInOrder(e, order, n - 1, if k < n - 1 then k else 0, opts); }
    if k == 0 && n == 1 { assert Lines(e, order[..0], opts) == []; }
  }

  /** The line of each device that has one stands behind those of the devices that have their turns before it. */
  lemma LineInReport(e: seq<Entry>, i: nat, opts: Options)
    requires i < |e|
    ensures |Order(e)| == |e| && 0 <= Rank(e, i) < |e| && forall j :: 0 <= j < |e| ==> Order(e)[j] < |e|
    ensures var shown, p := Lines(e, Order(e), opts), Tally(e, Order(e), Rank(e, i), opts);
            && |shown| == Tally(e, Order(e), |e|, opts)
            && (LineOf(e, i, opts).Some? ==> p < |shown| && shown[p] == LineOf(e, i, opts).value)
  {
    OrderIsWithin(e);
    OrderIsRanked(e);
    var order := Order(e);
    assert order[..|e|] == order;
    LineInOrder(e, order, |e|, Rank(e, i), opts);
  }

  /** Line p of a report is that of a device. */
  ghost predicate FromDevice(e: seq<Entry>, l: Line, opts: Options) {
    exists i :: 0 <= i < |e| && LineOf(e, i, opts) == Some(l)
  }

  /** The report shows each device that is no group and is in it, with the stated samples. */
  ghost predicate ShowsDevices(e: seq<Entry>, opts: Options, shown: seq<Line>) {
    forall i ::
      (0 <= i < |e| && e[i].tp < 3 && e[i].exist && InReport(e[i].curr, e[i].prev, opts)
       && !(opts.totalOnly && exists g :: 0 <= g < i && e[g].tp >= 3)) ==>
        exists k :: 0 <= k < |shown| && IsLine(shown[k], e[i].name, e[i].tp, e[i].curr, e[i].prev)
  }

  lemma ReportShowsDevices(e: seq<Entry>, opts: Options)
    requires forall k :: 0 <= k < |Order(e)| ==> Order(e)[k] < |e|
    ensures ShowsDevices(e, opts, Lines(e, Order(e), opts))
  {
    var shown := Lines(e, Order(e), opts);
    forall i | 0 <= i < |e| && e[i].tp < 3 && e[i].exist && InReport(e[i].curr, e[i].prev, opts)
               && !(opts.totalOnly && exists g :: 0 <= g < i && e[g].tp >= 3)
      ensures exists k :: 0 <= k < |shown| && IsLine(shown[k], e[i].name, e[i].tp, e[i].curr, e[i].prev)
    {
      LineOfDevice(e, i, opts);
      LineInReport(e, i, opts);
      var k := Tally(e, Order(e), Rank(e, i), opts);
      assert IsLine(shown[k], e[i].name, e[i].tp, e[i].curr, e[i].prev);
    }
  }

  lemma {:induction false} LinesAreOfDevices(e: seq<Entry>, order: seq<nat>, opts: Options, p: nat)
    requires (forall j :: 0 <= j < |order| ==> order[j] < |e|) && p < |Lines(e, order, opts)|
    ensures FromDevice(e, Lines(e, order, opts)[p], opts)
  {
    var n := |order| - 1;
    if p < |Lines(e, order[..n], opts)| {
      LinesAreOfDevices(e, order[..n], opts, p);
    } else {
      assert LineOf(e, order[n], opts) == Some(Lines(e, order, opts)[p]);
    }
  }
}
