/**
  The device loop of iostat's report: one pass over a list in which the header of a group stands
  before its members.
 */
module GroupPass {
  import opened Wrappers
  import opened Arithmetic
  import opened DeviceStats

  const T_GROUP := 3

  /** A device of the list at the start of the pass: `curr` and `prev` are its two samples. */
  datatype Entry = Entry(name: string, tp: int, exist: bool, curr: Io, prev: Io) {
    predicate IsGroup() { tp >= T_GROUP }
  }

  /** The options of the report; `first` is false for the further parts of a report in several parts. */
  datatype Options = Options(unfiltered: bool, totalOnly: bool, zeroOmit: bool, first: bool)

  /** A line of the report: the device, its type and the samples it is computed from. */
  datatype Line = Line(name: string, tp: int, curr: Io, prev: Io)

  // ----- The order: the devices without a group, then group by group the members and the group itself

  /** Where the devices from position i on end: at the next group, or at the end of the list. */
  function EndOf(e: seq<Entry>, i: nat): (n: nat)
    requires i <= |e|
    ensures i <= n <= |e|
    decreases |e| - i
  {
    if i == |e| || e[i].IsGroup() then i else EndOf(e, i + 1)
  }

  lemma {:induction false} EndOfEnds(e: seq<Entry>, i: nat)
    requires i <= |e|
    ensures forall k :: i <= k < EndOf(e, i) ==> !e[k].IsGroup()
    ensures EndOf(e, i) < |e| ==> e[EndOf(e, i)].IsGroup()
    decreases |e| - i
  {
    if i < |e| && !e[i].IsGroup() { EndOfEnds(e, i + 1); }
  }

  /** The groups from position p on, each behind its members. */
  function Groups(e: seq<Entry>, p: nat): seq<nat>
    requires p <= |e|
    decreases |e| - p
  {
    if p == |e| then [] else Range(p + 1, EndOf(e, p + 1)) + [p] + Groups(e, EndOf(e, p + 1))
  }

  function Order(e: seq<Entry>): seq<nat> {
    Range(0, EndOf(e, 0)) + Groups(e, EndOf(e, 0))
  }

  predicate BehindGroup(e: seq<Entry>, i: nat)
    requires i <= |e|
  {
    exists k :: 0 <= k < i && e[k].IsGroup()
  }

  /** The place of a device in the order. */
  function Rank(e: seq<Entry>, i: nat): int
    requires i < |e|
  {
    if e[i].IsGroup() then EndOf(e, i + 1) - 1 else if BehindGroup(e, i) then i - 1 else i
  }

  // ----- What a group shows

  function Existing(e: seq<Entry>, a: nat, b: nat): nat
    requires a <= b <= |e|
  {
    if a == b then 0 else Existing(e, a, b - 1) + if e[b - 1].exist then 1 else 0
  }

  /** The samples of the existing members that pass the activity filter. */
  function Members(e: seq<Entry>, a: nat, b: nat, unfiltered: bool): seq<Io>
    requires a <= b <= |e|
  {
    if a == b then []
    else
      var m := if e[b - 1].exist && (unfiltered || !Idle(e[b - 1].curr)) then [e[b - 1].curr] else [];
      Members(e, a, b - 1, unfiltered) + m
  }

  /** The type of device i when the loop stands at position n. */
  function TpAt(e: seq<Entry>, i: nat, n: nat, opts: Options): int
    requires i < |e|
  {
    if e[i].IsGroup() && i < n && opts.first then e[i].tp + Existing(e, i + 1, UpTo(e, i, n)) else e[i].tp
  }

  function CurrAt(e: seq<Entry>, i: nat, n: nat, opts: Options): Io
    requires i < |e|
  {
    if e[i].IsGroup() && i < n then
      if opts.first then Sum(Members(e, i + 1, UpTo(e, i, n), opts.unfiltered)) else ZERO
    else e[i].curr
  }

  /** The members of group i in front of position n end here. */
  function UpTo(e: seq<Entry>, i: nat, n: nat): (m: nat)
    requires i < |e| && i < n
    ensures i + 1 <= m <= |e|
  {
    if n < EndOf(e, i + 1) then n else EndOf(e, i + 1)
  }

  /** The line of device i, if it has one. */
  function LineOf(e: seq<Entry>, i: nat, opts: Options): Option<Line>
    requires i < |e|
  {
    if !e[i].IsGroup() && (!e[i].exist || (opts.totalOnly && BehindGroup(e, i))) then None
    else Written(e[i].name, TpAt(e, i, |e|, opts), CurrAt(e, i, |e|, opts), e[i].prev, opts)
  }

  function Written(name: string, tp: int, curr: Io, prev: Io, opts: Options): Option<Line> {
    if !opts.unfiltered && Idle(curr) then None
    else if opts.zeroOmit && SameIos(curr, prev) then None
    else Some(Line(name, tp, curr, if Replaced(curr, prev) then ZERO else prev))
  }

  function Lines(e: seq<Entry>, order: seq<nat>, opts: Options): seq<Line>
    requires forall k :: 0 <= k < |order| ==> order[k] < |e|
  {
    if order == [] then []
    else
      var i := order[|order| - 1];
      Lines(e, order[..|order| - 1], opts) + match LineOf(e, i, opts) { case Some(l) => [l] case None => [] }
  }

  // ----- Every device has its turn once

  lemma {:induction false} GroupsRanked(e: seq<Entry>, p: nat)
    requires p <= |e| && (p == |e| || e[p].IsGroup())
    ensures |Groups(e, p)| == |e| - p
    ensures forall i :: p <= i < |e| ==> p <= Rank(e, i) < |e| && Groups(e, p)[Rank(e, i) - p] == i
    decreases |e| - p
  {
    if p < |e| {
      var q := EndOf(e, p + 1);
      EndOfEnds(e, p + 1);
      GroupsRanked(e, q);
      forall i | p <= i < |e| ensures p <= Rank(e, i) < |e| && Groups(e, p)[Rank(e, i) - p] == i {
        if i >= q { assert Groups(e, p)[Rank(e, i) - p] == Groups(e, q)[Rank(e, i) - q]; }
      }
    }
  }

  /** The place of each device is as stated: no device is passed over, and none has two turns. */
  lemma OrderIsRanked(e: seq<Entry>)
    ensures |Order(e)| == |e|
    ensures forall i :: 0 <= i < |e| ==> 0 <= Rank(e, i) < |e| && Order(e)[Rank(e, i)] == i
  {
    var p := EndOf(e, 0);
    EndOfEnds(e, 0);
    GroupsRanked(e, p);
    forall i | 0 <= i < |e| ensures 0 <= Rank(e, i) < |e| && Order(e)[Rank(e, i)] == i {
      if i >= p { assert Order(e)[Rank(e, i)] == Groups(e, p)[Rank(e, i) - p]; }
    }
  }

  lemma {:induction false} OrderIsWithin(e: seq<Entry>)
    ensures forall k :: 0 <= k < |Order(e)| ==> Order(e)[k] < |e|
  {
    GroupsAreWithin(e, EndOf(e, 0));
  }

  lemma {:induction false} GroupsAreWithin(e: seq<Entry>, p: nat)
    requires p <= |e|
    ensures forall k :: 0 <= k < |Groups(e, p)| ==> Groups(e, p)[k] < |e|
    decreases |e| - p
  {
    if p < |e| { GroupsAreWithin(e, EndOf(e, p + 1)); }
  }

  /** A group comes behind all its members and in front of whatever follows them in the list. */
  lemma GroupBehindMembers(e: seq<Entry>, g: nat, i: nat)
    requires g < |e| && i < |e| && e[g].IsGroup() && g < i
    ensures Rank(e, i) < Rank(e, g) <==> i < EndOf(e, g + 1)
    ensures Rank(e, i) > Rank(e, g) <==> i >= EndOf(e, g + 1)
  {
    EndOfEnds(e, g + 1);
    assert BehindGroup(e, i);
  }

  // ----- The loop: it stands at device i, and group gp is pending unless it is -1

  ghost predicate Pending(e: seq<Entry>, i: nat, gp: int) {
    && i <= |e|
    && if gp < 0 then gp == -1 && (i < |e| ==> !BehindGroup(e, i))
       else gp < i && e[gp].IsGroup() && i <= EndOf(e, gp + 1)
  }

  /** The turns that are still to come. */
  function Rest(e: seq<Entry>, i: nat, gp: int): seq<nat>
    requires i <= |e| && gp < |e|
  {
    Range(i, EndOf(e, i)) + (if gp < 0 then [] else [gp]) + Groups(e, EndOf(e, i))
  }

  lemma {:induction false} SameEnd(e: seq<Entry>, a: nat, i: nat)
    requires a <= |e| && a <= i <= EndOf(e, a)
    ensures EndOf(e, i) == EndOf(e, a)
    decreases i - a
  {
    if a < i { SameEnd(e, a + 1, i); }
  }

  /** Members of a group that is not pending have all been passed. */
  lemma ClosedGroup(e: seq<Entry>, k: nat, i: nat, gp: int)
    requires Pending(e, i, gp) && i < |e| && k < i && e[k].IsGroup() && k != gp
    ensures EndOf(e, k + 1) <= i
  {
    EndOfEnds(e, k + 1);
    if gp >= 0 { EndOfEnds(e, gp + 1); }
  }

  /** A step of the loop changes nothing for a device that is neither pending nor a group that it reaches. */
  lemma StepElsewhere(e: seq<Entry>, k: nat, i: nat, gp: int, opts: Options)
    requires Pending(e, i, gp) && i < |e| && k < |e| && k != gp && !(k == i && e[i].IsGroup())
    ensures TpAt(e, k, i + 1, opts) == TpAt(e, k, i, opts) && CurrAt(e, k, i + 1, opts) == CurrAt(e, k, i, opts)
  {
    if k < i && e[k].IsGroup() { ClosedGroup(e, k, i, gp); }
  }

  lemma StepReached(e: seq<Entry>, i: nat, opts: Options)
    requires i < |e| && e[i].IsGroup()
    ensures TpAt(e, i, i + 1, opts) == e[i].tp && CurrAt(e, i, i + 1, opts) == ZERO
  {
  }

  lemma StepToGroup(e: seq<Entry>, i: nat, gp: nat, opts: Options)
    requires Pending(e, i, gp) && i < |e| && e[i].IsGroup()
    ensures TpAt(e, gp, i + 1, opts) == TpAt(e, gp, i, opts) && CurrAt(e, gp, i + 1, opts) == CurrAt(e, gp, i, opts)
  {
    EndOfEnds(e, gp + 1);
  }

  lemma StepToMember(e: seq<Entry>, i: nat, gp: nat, opts: Options)
    requires Pending(e, i, gp) && i < |e| && !e[i].IsGroup()
    ensures TpAt(e, gp, i + 1, opts) == TpAt(e, gp, i, opts) + (if opts.first && e[i].exist then 1 else 0)
    ensures CurrAt(e, gp, i + 1, opts) == (if opts.first && e[i].exist && (opts.unfiltered || !Idle(e[i].curr))
                                           then Add(CurrAt(e, gp, i, opts), e[i].curr) else CurrAt(e, gp, i, opts))
  {
    UpToMember(e, i, gp);
    SumOfMembers(e, gp + 1, i + 1, opts.unfiltered);
    assert CurrAt(e, gp, i, opts) == if opts.first then Sum(Members(e, gp + 1, i, opts.unfiltered)) else ZERO;
    assert CurrAt(e, gp, i + 1, opts) == if opts.first then Sum(Members(e, gp + 1, i + 1, opts.unfiltered)) else ZERO;
  }

  lemma UpToMember(e: seq<Entry>, i: nat, gp: nat)
    requires Pending(e, i, gp) && i < |e| && !e[i].IsGroup()
    ensures UpTo(e, gp, i) == i && UpTo(e, gp, i + 1) == i + 1
  {
    EndOfEnds(e, gp + 1);
  }

  lemma SumOfMembers(e: seq<Entry>, a: nat, b: nat, unfiltered: bool)
    requires a < b <= |e|
    ensures Sum(Members(e, a, b, unfiltered))
            == if e[b - 1].exist && (unfiltered || !Idle(e[b - 1].curr))
               then Add(Sum(Members(e, a, b - 1, unfiltered)), e[b - 1].curr)
               else Sum(Members(e, a, b - 1, unfiltered))
  {
    var s := Members(e, a, b - 1, unfiltered);
    assert (s + [e[b - 1].curr])[..|s|] == s;
    assert s + [] == s;
  }

  /** The first group: nobody has a turn. */
  lemma RestFirstGroup(e: seq<Entry>, i: nat)
    requires i < |e| && e[i].IsGroup() && Pending(e, i, -1)
    ensures Rest(e, i + 1, i) == Rest(e, i, -1)
  {
  }

  /** A group takes over: the pending one has its turn. */
  lemma RestNextGroup(e: seq<Entry>, i: nat, gp: nat)
    requires i < |e| && e[i].IsGroup() && Pending(e, i, gp)
    ensures Rest(e, i, gp) == [gp] + Rest(e, i + 1, i)
  {
    assert EndOf(e, i) == i && Range(i, i) == [];
    assert Groups(e, i) == Rest(e, i + 1, i);
  }

  lemma GroupIsPending(e: seq<Entry>, i: nat)
    requires i < |e| && e[i].IsGroup()
    ensures Pending(e, i + 1, i)
  {
  }

  lemma GroupEnds(e: seq<Entry>, i: nat, gp: nat)
    requires i < |e| && e[i].IsGroup() && Pending(e, i, gp)
    ensures i == EndOf(e, gp + 1)
  {
    EndOfEnds(e, gp + 1);
  }

  /** A device that is no group has its turn. */
  lemma RestDevice(e: seq<Entry>, i: nat, gp: int)
    requires i < |e| && !e[i].IsGroup() && Pending(e, i, gp)
    ensures Rest(e, i, gp) == [i] + Rest(e, i + 1, gp)
  {
    var n := EndOf(e, i + 1);
    assert EndOf(e, i) == n && Range(i, n) == [i] + Range(i + 1, n);
  }

  lemma DeviceIsPassed(e: seq<Entry>, i: nat, gp: int)
    requires i < |e| && !e[i].IsGroup() && Pending(e, i, gp)
    ensures Pending(e, i + 1, gp) && (BehindGroup(e, i) <==> gp >= 0)
  {
    if gp >= 0 {
      SameEnd(e, gp + 1, i);
    }
  }

  /** The end of the list: the last group has its turn. */
  lemma RestEnd(e: seq<Entry>, gp: nat)
    requires Pending(e, |e|, gp)
    ensures Pending(e, |e|, -1) && Rest(e, |e|, gp) == [gp] + Rest(e, |e|, -1) && |e| == EndOf(e, gp + 1)
  {
  }

  /** The turns that were had and what they showed. */
  ghost predicate Progress(e: seq<Entry>, handled: seq<nat>, shown: seq<Line>, rest: seq<nat>, opts: Options) {
    && handled + rest == Order(e)
    && (forall k :: 0 <= k < |handled| ==> handled[k] < |e|)
    && shown == Lines(e, handled, opts)
  }

  lemma ProgressTurn(e: seq<Entry>, handled: seq<nat>, shown: seq<Line>, i: nat, rest: seq<nat>, opts: Options)
    requires i < |e| && Progress(e, handled, shown, [i] + rest, opts)
    ensures var lines := match LineOf(e, i, opts) { case Some(l) => [l] case None => [] };
            Progress(e, handled + [i], shown + lines, rest, opts)
  {
    assert handled + ([i] + rest) == (handled + [i]) + rest;
    assert (handled + [i])[..|handled|] == handled;
  }

  // ----- Groups at the time of their turn

  /**
    Each counter of a group is, modulo its width, the exact sum over the members that exist and pass
    the filter; the type has counted the existing ones.
   */
  lemma GroupShowsItsMembers(e: seq<Entry>, g: nat, opts: Options, f: Counter)
    requires g < |e| && e[g].IsGroup() && opts.first
    ensures Get(CurrAt(e, g, |e|, opts), f) == Exact(Members(e, g + 1, EndOf(e, g + 1), opts.unfiltered), f) % Width(f)
    ensures TpAt(e, g, |e|, opts) == e[g].tp + Existing(e, g + 1, EndOf(e, g + 1))
  {
    SumIsFieldwise(Members(e, g + 1, EndOf(e, g + 1), opts.unfiltered), f);
  }

  /** What a group shows does not depend on devices outside it. */
  lemma {:induction false} OnlyMembersMatter(e: seq<Entry>, e': seq<Entry>, g: nat, opts: Options)
    requires |e| == |e'| && g < |e| && e[g].IsGroup() && e'[g].IsGroup() && e[g].tp == e'[g].tp
    requires EndOf(e, g + 1) == EndOf(e', g + 1)
    requires forall k :: g < k < EndOf(e, g + 1) ==> e[k] == e'[k]
    ensures TpAt(e, g, |e|, opts) == TpAt(e', g, |e'|, opts) && CurrAt(e, g, |e|, opts) == CurrAt(e', g, |e'|, opts)
  {
    SameMembers(e, e', g + 1, EndOf(e, g + 1), opts.unfiltered);
  }

  lemma {:induction false} SameMembers(e: seq<Entry>, e': seq<Entry>, a: nat, b: nat, unfiltered: bool)
    requires a <= b <= |e| == |e'| && forall k :: a <= k < b ==> e[k] == e'[k]
    ensures Members(e, a, b, unfiltered) == Members(e', a, b, unfiltered) && Existing(e, a, b) == Existing(e', a, b)
  {
    if a < b { SameMembers(e, e', a, b - 1, unfiltered); }
  }

  /** In the further parts of a report a group is empty: it has a line exactly if nothing is filtered. */
  lemma LaterPartsHideGroups(e: seq<Entry>, g: nat, opts: Options)
    requires g < |e| && e[g].IsGroup() && !opts.first
    ensures LineOf(e, g, opts).Some? <==> opts.unfiltered && !(opts.zeroOmit && Idle(e[g].prev))
  {
  }

  lemma SumOfOne(x: Io)
    ensures Sum([x]) == x
  {
    assert [x][..0] == [] && Sum([]) == ZERO;
    AddToZero(x);
  }

  lemma AddToZero(x: Io)
    ensures Add(ZERO, x) == x
  {
  }

  /** A group with a busy member: it has a line in the first part, and none in the others. */
  lemma BusyGroupIsHidden(e: seq<Entry>, opts: Options)
    requires |e| == 2 && e[0].IsGroup() && !e[1].IsGroup() && e[1].exist && !Idle(e[1].curr)
    requires !opts.unfiltered && !opts.zeroOmit && opts.first
    ensures LineOf(e, 0, opts).Some? && LineOf(e, 0, opts.(first := false)).None?
  {
    assert EndOf(e, 1) == EndOf(e, 2) == 2;
    assert Members(e, 1, 1, false) == [] && [] + [e[1].curr] == [e[1].curr];
    assert Members(e, 1, 2, false) == [e[1].curr];
    SumOfOne(e[1].curr);
    LaterPartsHideGroups(e, 0, opts.(first := false));
  }
}
