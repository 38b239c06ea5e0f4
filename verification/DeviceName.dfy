/** The names that ioc_name gives to (major, minor) pairs, and why different devices get different names. */
module DeviceName {
  import opened Wrappers
  import opened Arithmetic
  import opened Numerals
  import opened DeviceTable

  const MAX_MINOR: nat := 0xF_FFFF

  /** Every entry points to a template. */
  predicate NoNull(t: Table) {
    Proper(t) && forall m :: 0 <= m < |t.slots| && t.slots[m].Some? ==>
      t.slots[m].value.tmpl.Some? && t.slots[m].value.base <= MAX_BLKDEV
  }

  /** %d of an unsigned argument. */
  function Printed(n: nat): string {
    var u := U32(n);
    if u < 0x8000_0000 then Ito10(u) else "-" + Ito10(TWO_32 - u)
  }

  /** The index of the disk in its major, and of the partition on its disk. */
  function DiskIndex(c: Config, minor: nat): nat
    requires c.pcount > 0
  {
    minor % 256 / c.pcount
  }

  function PartIndex(c: Config, minor: nat): nat
    requires c.pcount > 0
  {
    minor % c.pcount
  }

  /** base and offset of ioc_name, in 32-bit arithmetic: `near` is added for the controller, `far` for large minors. */
  function WordSum(near: nat, far: nat, large: bool, explicit: bool, disk: nat): (n: nat)
    ensures n < TWO_32
  {
    var base := if large then U32(U32(near) + far) else U32(near);
    U32(disk + if explicit then 0 else base)
  }

  /** The disk number within a family of majors; `high` is the minor without its low byte. */
  function DiskNumber(c: Config, ctrlno: nat, refnr: nat, high: nat, disk: nat): (n: nat)
    ensures n < TWO_32
  {
    WordSum(ctrlno * c.dcount, c.dcount * (refnr + 1) * high, high >= 1, c.explicit, disk)
  }

  function DiskNumeral(c: Config, n: nat): string
    requires n < TWO_32
  {
    if c.unit.Letters? then Ito26(n) else Ito10(n)
  }

  function PartText(c: Config, part: nat): string {
    if part == 0 then "" else c.partPrefix + Printed(part)
  }

  function NameText(c: Config, ctrlno: nat, refnr: nat, minor: nat): string
    requires c.pcount > 0
  {
    var n := DiskNumber(c, ctrlno, refnr, minor / 256, DiskIndex(c, minor));
    c.prefix + (if c.explicit then Printed(ctrlno) else "") + c.diskPrefix
    + (DiskNumeral(c, n) + PartText(c, PartIndex(c, minor)))
  }

  predicate InRange(c: Config, minor: nat) {
    minor % 256 < U32(c.dcount * c.pcount)
  }

  /** ioc_name: no name at all, "nodev", the name of an exception, or a name made from the numbers. */
  function NameOf(t: Table, major: nat, minor: nat): Option<string>
    requires NoNull(t)
  {
    if major > MAX_BLKDEV || minor > MAX_MINOR then None
    else if t.slots[major].None? then Some("nodev")
    else
      var e := t.slots[major].value;
      var tmpl := t.templates[e.tmpl.value];
      if !InRange(tmpl.config, minor) then Some("nodev")
      else if tmpl.ext.Some? && tmpl.ext.value.minor == minor then Some(tmpl.ext.value.name)
      else Some(NameText(tmpl.config, e.ctrlno, t.refnr[e.base], minor))
  }

  // ----- Mixed radix

  /** What is asked of a template, of a controller number and of a reference count, so that nothing wraps around. */
  predicate Plain(c: Config, ctrlno: nat, refnr: nat) {
    !c.explicit && 1 <= c.dcount <= 256 && c.pcount >= 1 && ctrlno <= MAX_BLKDEV + 1 && refnr <= MAX_BLKDEV + 1
  }

  /** The place of a controller's block of disks in the family: `high` is the minor without its low byte. */
  function Block(ctrlno: nat, refnr: nat, high: nat): nat {
    ctrlno + (refnr + 1) * high
  }

  lemma ProductsFit(c: Config, ctrlno: nat, refnr: nat, high: nat)
    requires Plain(c, ctrlno, refnr) && high <= 4095
    ensures ctrlno * c.dcount <= 131072 && c.dcount * (refnr + 1) * high <= 537788160
  {
    ProductBound(ctrlno, 512, c.dcount, 256);
    ProductBound(c.dcount, 256, refnr + 1, 513);
    ProductBound(c.dcount * (refnr + 1), 131328, high, 4095);
  }

  lemma WordSumIsExact(near: nat, far: nat, large: bool, disk: nat)
    requires near <= 131072 && far <= 537788160 && disk <= 255 && (!large ==> far == 0)
    ensures WordSum(near, far, large, false, disk) == disk + near + far < 0x8000_0000
  {
  }

  /** No intermediate value exceeds an int: the 32-bit disk number is the exact mixed-radix number. */
  lemma DiskNumberIsExact(c: Config, ctrlno: nat, refnr: nat, high: nat, disk: nat) returns (x: nat)
    requires Plain(c, ctrlno, refnr) && high <= 4095 && disk <= 255
    ensures ctrlno * c.dcount < 0x8000_0000 && c.dcount * (refnr + 1) * high < 0x8000_0000
    ensures x == Block(ctrlno, refnr, high)
    ensures DiskNumber(c, ctrlno, refnr, high, disk) == disk + c.dcount * x < 0x8000_0000
  {
    x := ctrlno + (refnr + 1) * high;
    ProductsFit(c, ctrlno, refnr, high);
    WordSumIsExact(ctrlno * c.dcount, c.dcount * (refnr + 1) * high, high >= 1, disk);
  }

  /** A minor in range addresses one of the `dcount` disks of its major. */
  lemma DiskInMajor(c: Config, minor: nat)
    requires c.pcount >= 1 && 1 <= c.dcount <= 256 && InRange(c, minor)
    ensures DiskIndex(c, minor) < c.dcount && DiskIndex(c, minor) <= 255
  {
    var lo, q := minor % 256, DiskIndex(c, minor);
    QuotientAndRemainder(lo, c.pcount);
    if q >= c.dcount { ProductBound(c.dcount, q, c.pcount, c.pcount); }
  }

  lemma SameLow(p: nat, high: nat, lo1: nat, lo2: nat)
    requires p >= 1 && lo1 / p == lo2 / p && (256 * high + lo1) % p == (256 * high + lo2) % p
    ensures lo1 == lo2
  {
    var m1, m2 := 256 * high + lo1, 256 * high + lo2;
    QuotientAndRemainder(lo1, p);
    QuotientAndRemainder(lo2, p);
    QuotientAndRemainder(m1, p);
    QuotientAndRemainder(m2, p);
    var r1, r2, r := lo1 % p, lo2 % p, m1 % p;
    SameRemainder(p, r1, m1 / p, r2, m2 / p, r, m1 - lo1 + (lo1 / p) * p);
  }

  /** x + r1 and x + r2 have the remainder r: two remainders that differ by a multiple of p are equal. */
  lemma SameRemainder(p: nat, r1: nat, k1: nat, r2: nat, k2: nat, r: nat, x: nat)
    requires r1 < p && r2 < p && x + r1 == k1 * p + r && x + r2 == k2 * p + r
    ensures r1 == r2
  {
    if k1 < k2 { MulMonotone(p, k1 + 1, k2); }
    if k2 < k1 { MulMonotone(p, k2 + 1, k1); }
  }

  /** Disk numbers of one template are equal if and only if the disks have one place in one block. */
  lemma DiskNumbersIff(c: Config, ctrl1: nat, refnr1: nat, minor1: nat, ctrl2: nat, refnr2: nat, minor2: nat)
    requires Plain(c, ctrl1, refnr1) && Plain(c, ctrl2, refnr2)
    requires minor1 <= MAX_MINOR && minor2 <= MAX_MINOR && InRange(c, minor1) && InRange(c, minor2)
    ensures DiskNumber(c, ctrl1, refnr1, minor1 / 256, DiskIndex(c, minor1))
            == DiskNumber(c, ctrl2, refnr2, minor2 / 256, DiskIndex(c, minor2))
            <==> (DiskIndex(c, minor1) == DiskIndex(c, minor2)
                  && Block(ctrl1, refnr1, minor1 / 256) == Block(ctrl2, refnr2, minor2 / 256))
  {
    var q1, q2 := DiskIndex(c, minor1), DiskIndex(c, minor2);
    DiskInMajor(c, minor1);
    DiskInMajor(c, minor2);
    var x1 := DiskNumberIsExact(c, ctrl1, refnr1, minor1 / 256, q1);
    var x2 := DiskNumberIsExact(c, ctrl2, refnr2, minor2 / 256, q2);
    if q1 + c.dcount * x1 == q2 + c.dcount * x2 { DigitsUnique(c.dcount, q1, x1, q2, x2); }
  }

  /**
    Where the majors have one reference count, and controller numbers up to it, place, block and
    partition number together identify the controller and the minor.
   */
  lemma BlocksIdentify(c: Config, refnr: nat, ctrl1: nat, minor1: nat, ctrl2: nat, minor2: nat)
    requires c.pcount >= 1 && ctrl1 <= refnr && ctrl2 <= refnr
    requires Block(ctrl1, refnr, minor1 / 256) == Block(ctrl2, refnr, minor2 / 256)
    requires DiskIndex(c, minor1) == DiskIndex(c, minor2) && PartIndex(c, minor1) == PartIndex(c, minor2)
    ensures ctrl1 == ctrl2 && minor1 == minor2
  {
    DigitsUnique(refnr + 1, ctrl1, minor1 / 256, ctrl2, minor2 / 256);
    SameLow(c.pcount, minor1 / 256, minor1 % 256, minor2 % 256);
  }

  // ----- Names

  /**
    The disk numeral can be told from the partition number: a decimal numeral needs something
    that is no digit between them.
   */
  predicate Separated(c: Config) {
    c.unit.Decimal? ==> !IsDigits(c.partPrefix)
  }

  /** The numerals that DiskNumeral writes. */
  predicate IsNumeral(c: Config, s: string) {
    if c.unit.Letters? then IsLetters(s) else IsDigits(s)
  }

  lemma NumeralKind(c: Config, n: nat)
    requires n < TWO_32
    ensures IsNumeral(c, DiskNumeral(c, n))
  {
    Ito26RoundTrip(n);
    Ito10RoundTrip(n, "0");
  }

  lemma PartKind(c: Config, part: nat)
    requires 0 < part < 0x8000_0000
    ensures var d := Ito10(part); PartText(c, part) == c.partPrefix + d && IsDigits(d) && d != ""
  {
    Ito10RoundTrip(part, "0");
  }

  /** A character that no numeral of the template holds: a digit among letters, anything else among digits. */
  predicate Mark(c: Config, x: char) {
    ('0' <= x <= '9') == c.unit.Letters?
  }

  function FirstMark(c: Config, s: string, i: nat): nat
    requires i <= |s|
    decreases |s| - i
  {
    if i == |s| || Mark(c, s[i]) then i else FirstMark(c, s, i + 1)
  }

  lemma {:induction false} FirstMarkStops(c: Config, s: string, i: nat)
    requires i <= |s|
    ensures var k := FirstMark(c, s, i);
            i <= k <= |s| && (k < |s| ==> Mark(c, s[k])) && forall m :: i <= m < k ==> !Mark(c, s[m])
    decreases |s| - i
  {
    if i < |s| && !Mark(c, s[i]) { FirstMarkStops(c, s, i + 1); }
  }

  /** The first mark behind a numeral is where the partition prefix has one, or where the partition number starts. */
  lemma MarkOfPart(c: Config, d: string)
    requires Separated(c) && IsDigits(d) && d != ""
    ensures var s, k := c.partPrefix + d, FirstMark(c, c.partPrefix, 0);
            k < |s| && Mark(c, s[k]) && forall m :: 0 <= m < k ==> !Mark(c, s[m])
  {
    FirstMarkStops(c, c.partPrefix, 0);
    var k := FirstMark(c, c.partPrefix, 0);
    if k == |c.partPrefix| { assert (c.partPrefix + d)[k] == d[0]; }
  }

  /** Behind a numeral the first mark of a partition text is at a fixed distance; a numeral alone has none. */
  lemma MarksOfText(c: Config, l: string, r: nat)
    requires Separated(c) && IsNumeral(c, l) && r < 0x8000_0000
    ensures var s, n := l + PartText(c, r), |l| + FirstMark(c, c.partPrefix, 0);
            if r > 0 then n < |s| && Mark(c, s[n]) && forall m :: 0 <= m < n ==> !Mark(c, s[m])
            else |s| == |l| && forall m :: 0 <= m < |s| ==> !Mark(c, s[m])
  {
    if r > 0 {
      PartKind(c, r);
      MarkOfPart(c, Ito10(r));
    }
  }

  lemma SameFront(l1: string, t1: string, l2: string, t2: string)
    requires l1 + t1 == l2 + t2 && |l1| == |l2|
    ensures l1 == l2 && t1 == t2
  {
    var s := l1 + t1;
    assert s == l2 + t2 && s[..|l1|] == l1 && s[..|l2|] == l2 && s[|l1|..] == t1 && s[|l2|..] == t2;
  }

  /** A numeral and a partition text are both determined by their concatenation. */
  lemma TextsIdentify(c: Config, l1: string, r1: nat, l2: string, r2: nat)
    requires Separated(c) && IsNumeral(c, l1) && IsNumeral(c, l2) && r1 < 0x8000_0000 && r2 < 0x8000_0000
    requires l1 + PartText(c, r1) == l2 + PartText(c, r2)
    ensures l1 == l2 && PartText(c, r1) == PartText(c, r2)
  {
    MarksOfText(c, l1, r1);
    MarksOfText(c, l2, r2);
    SameFront(l1, PartText(c, r1), l2, PartText(c, r2));
  }

  lemma NumeralsIdentify(c: Config, n1: nat, n2: nat)
    requires n1 < TWO_32 && n2 < TWO_32 && DiskNumeral(c, n1) == DiskNumeral(c, n2)
    ensures n1 == n2
  {
    Ito26RoundTrip(n1);
    Ito26RoundTrip(n2);
    Ito10RoundTrip(n1, "0");
    Ito10RoundTrip(n2, "0");
  }

  lemma PartsIdentify(c: Config, r1: nat, r2: nat)
    requires r1 < 0x8000_0000 && r2 < 0x8000_0000 && PartText(c, r1) == PartText(c, r2)
    ensures r1 == r2
  {
    if r1 > 0 { PartKind(c, r1); }
    if r2 > 0 { PartKind(c, r2); }
    if r1 > 0 && r2 > 0 {
      var p := c.partPrefix;
      assert (p + Ito10(r1))[|p|..] == Ito10(r1) && (p + Ito10(r2))[|p|..] == Ito10(r2);
      Ito10RoundTrip(r1, "0");
      Ito10RoundTrip(r2, "0");
    }
  }

  /** Disk numeral and partition text are equal if and only if the numbers are. */
  lemma NumbersIff(c: Config, n1: nat, r1: nat, n2: nat, r2: nat)
    requires Separated(c) && n1 < TWO_32 && n2 < TWO_32 && r1 < 0x8000_0000 && r2 < 0x8000_0000
    ensures DiskNumeral(c, n1) + PartText(c, r1) == DiskNumeral(c, n2) + PartText(c, r2) <==> n1 == n2 && r1 == r2
  {
    NumeralKind(c, n1);
    NumeralKind(c, n2);
    if DiskNumeral(c, n1) + PartText(c, r1) == DiskNumeral(c, n2) + PartText(c, r2) {
      TextsIdentify(c, DiskNumeral(c, n1), r1, DiskNumeral(c, n2), r2);
      NumeralsIdentify(c, n1, n2);
      PartsIdentify(c, r1, r2);
    }
  }

  /** What stands in front of the disk numeral. */
  function Front(c: Config, ctrlno: nat): string {
    c.prefix + (if c.explicit then Printed(ctrlno) else "") + c.diskPrefix
  }

  lemma SameFronts(front: string, t1: string, t2: string)
    ensures front + t1 == front + t2 <==> t1 == t2
  {
    assert (front + t1)[|front|..] == t1 && (front + t2)[|front|..] == t2;
  }

  lemma PartIsSmall(c: Config, minor: nat)
    requires c.pcount >= 1 && minor <= MAX_MINOR
    ensures PartIndex(c, minor) < 0x8000_0000
  {
    QuotientAndRemainder(minor, c.pcount);
  }

  /**
    Two devices of one template, without explicit controller, have one name if and only if they
    have one disk number and one partition number, in 32 bits and for any records at all.
   */
  lemma NamesIff(c: Config, ctrl1: nat, refnr1: nat, minor1: nat, ctrl2: nat, refnr2: nat, minor2: nat)
    requires !c.explicit && c.pcount >= 1 && Separated(c) && minor1 <= MAX_MINOR && minor2 <= MAX_MINOR
    ensures NameText(c, ctrl1, refnr1, minor1) == NameText(c, ctrl2, refnr2, minor2)
            <==> (DiskNumber(c, ctrl1, refnr1, minor1 / 256, DiskIndex(c, minor1))
                  == DiskNumber(c, ctrl2, refnr2, minor2 / 256, DiskIndex(c, minor2))
                  && PartIndex(c, minor1) == PartIndex(c, minor2))
  {
    var n1 := DiskNumber(c, ctrl1, refnr1, minor1 / 256, DiskIndex(c, minor1));
    var n2 := DiskNumber(c, ctrl2, refnr2, minor2 / 256, DiskIndex(c, minor2));
    PartIsSmall(c, minor1);
    PartIsSmall(c, minor2);
    NumbersIff(c, n1, PartIndex(c, minor1), n2, PartIndex(c, minor2));
    SameFronts(Front(c, 0), DiskNumeral(c, n1) + PartText(c, PartIndex(c, minor1)),
               DiskNumeral(c, n2) + PartText(c, PartIndex(c, minor2)));
  }

  /** Where nothing wraps around, if and only if they agree in the block, the disk in it and the partition. */
  lemma PlainNamesIff(c: Config, ctrl1: nat, refnr1: nat, minor1: nat, ctrl2: nat, refnr2: nat, minor2: nat)
    requires Plain(c, ctrl1, refnr1) && Plain(c, ctrl2, refnr2) && Separated(c)
    requires minor1 <= MAX_MINOR && minor2 <= MAX_MINOR && InRange(c, minor1) && InRange(c, minor2)
    ensures NameText(c, ctrl1, refnr1, minor1) == NameText(c, ctrl2, refnr2, minor2)
            <==> (Block(ctrl1, refnr1, minor1 / 256) == Block(ctrl2, refnr2, minor2 / 256)
                  && DiskIndex(c, minor1) == DiskIndex(c, minor2) && PartIndex(c, minor1) == PartIndex(c, minor2))
  {
    NamesIff(c, ctrl1, refnr1, minor1, ctrl2, refnr2, minor2);
    DiskNumbersIff(c, ctrl1, refnr1, minor1, ctrl2, refnr2, minor2);
  }

  // ----- Devices of a table

  /** Two majors with one template. */
  ghost predicate Siblings(t: Table, m1: nat, m2: nat) {
    && Invariant(t) && NoNull(t) && m1 <= MAX_BLKDEV && m2 <= MAX_BLKDEV && t.slots[m1].Some? && t.slots[m2].Some?
    && t.slots[m1].value.tmpl == t.slots[m2].value.tmpl
  }

  /** The template of a major, if its names have no explicit controller and its numbers stay small. */
  predicate PlainMajor(t: Table, m: nat)
    requires NoNull(t) && m <= MAX_BLKDEV && t.slots[m].Some?
  {
    var e := t.slots[m].value;
    var c := t.templates[e.tmpl.value].config;
    !c.explicit && 1 <= c.dcount <= 256 && Separated(c) && e.ctrlno <= MAX_BLKDEV + 1
  }

  function ConfigOf(t: Table, m: nat): Config
    requires NoNull(t) && m <= MAX_BLKDEV && t.slots[m].Some?
  {
    t.templates[t.slots[m].value.tmpl.value].config
  }

  function BlockOf(t: Table, m: nat, minor: nat): nat
    requires NoNull(t) && m <= MAX_BLKDEV && t.slots[m].Some?
  {
    Block(t.slots[m].value.ctrlno, t.refnr[t.slots[m].value.base], minor / 256)
  }

  /** A device that has a name of its own making: in range, and no exception. */
  predicate Ordinary(t: Table, m: nat, minor: nat)
    requires Proper(t) && m <= MAX_BLKDEV && t.slots[m].Some? && t.slots[m].value.tmpl.Some?
  {
    var tmpl := t.templates[t.slots[m].value.tmpl.value];
    minor <= MAX_MINOR && InRange(tmpl.config, minor) && !(tmpl.ext.Some? && tmpl.ext.value.minor == minor)
  }

  /** The first `n` majors. */
  function Majors(n: nat): (s: set<nat>)
    ensures (forall m: nat :: m in s <==> m < n) && |s| == n
  {
    if n == 0 then {} else Majors(n - 1) + {n - 1}
  }

  lemma BasedIsBounded(slots: seq<Option<Entry>>, b: nat)
    ensures |Based(slots, b)| <= |slots|
  {
    assert Based(slots, b) <= Majors(|slots|);
    SubsetCardinality(Based(slots, b), Majors(|slots|));
  }

  lemma {:induction false} SubsetCardinality(a: set<nat>, b: set<nat>)
    requires a <= b
    ensures |a| <= |b|
    decreases a
  {
    if a != {} {
      var x :| x in a;
      SubsetCardinality(a - {x}, b - {x});
    }
  }

  lemma SoundTableHasNoNull(t: Table)
    requires Invariant(t)
    ensures NoNull(t)
  {
    forall m | 0 <= m < |t.slots| && t.slots[m].Some?
      ensures t.slots[m].value.tmpl.Some? && t.slots[m].value.base <= MAX_BLKDEV
    {
      assert SoundEntry(t, m);
    }
  }

  lemma RangeNeedsPartitions(c: Config, minor: nat)
    requires InRange(c, minor)
    ensures c.pcount >= 1
  {
  }

  lemma PlainEntry(t: Table, m: nat)
    requires Invariant(t) && NoNull(t) && m <= MAX_BLKDEV && t.slots[m].Some? && PlainMajor(t, m)
    requires ConfigOf(t, m).pcount >= 1
    ensures Plain(ConfigOf(t, m), t.slots[m].value.ctrlno, t.refnr[t.slots[m].value.base])
  {
    BasedIsBounded(t.slots, t.slots[m].value.base);
  }

  /**
    ioc_name on ordinary devices of majors that share a template, in any sound table: the names
    are equal if and only if the devices agree in the block, the disk in it and the partition.
   */
  lemma SiblingNamesIff(t: Table, m1: nat, minor1: nat, m2: nat, minor2: nat)
    requires Siblings(t, m1, m2) && PlainMajor(t, m1) && PlainMajor(t, m2)
    requires Ordinary(t, m1, minor1) && Ordinary(t, m2, minor2) && ConfigOf(t, m1).pcount >= 1
    ensures NameOf(t, m1, minor1) == NameOf(t, m2, minor2)
            <==> (BlockOf(t, m1, minor1) == BlockOf(t, m2, minor2)
                  && DiskIndex(ConfigOf(t, m1), minor1) == DiskIndex(ConfigOf(t, m1), minor2)
                  && PartIndex(ConfigOf(t, m1), minor1) == PartIndex(ConfigOf(t, m1), minor2))
  {
    var e1, e2 := t.slots[m1].value, t.slots[m2].value;
    PlainEntry(t, m1);
    PlainEntry(t, m2);
    PlainNamesIff(ConfigOf(t, m1), e1.ctrlno, t.refnr[e1.base], minor1, e2.ctrlno, t.refnr[e2.base], minor2);
  }

  /** So on minors below 256, where controller numbers differ, names do. */
  lemma SiblingsWithSmallMinors(t: Table, m1: nat, minor1: nat, m2: nat, minor2: nat)
    requires Siblings(t, m1, m2) && PlainMajor(t, m1) && PlainMajor(t, m2)
    requires Ordinary(t, m1, minor1) && Ordinary(t, m2, minor2) && minor1 < 256 && minor2 < 256
    requires NameOf(t, m1, minor1) == NameOf(t, m2, minor2)
    ensures t.slots[m1].value.ctrlno == t.slots[m2].value.ctrlno && minor1 == minor2
  {
    RangeNeedsPartitions(ConfigOf(t, m1), minor1);
    SiblingNamesIff(t, m1, minor1, m2, minor2);
    var e1, e2 := t.slots[m1].value, t.slots[m2].value;
    BlockOfSmallMinor(e1.ctrlno, t.refnr[e1.base], minor1);
    BlockOfSmallMinor(e2.ctrlno, t.refnr[e2.base], minor2);
    SmallMinorsIdentify(ConfigOf(t, m1), minor1, minor2);
  }

  lemma BlockOfSmallMinor(ctrlno: nat, refnr: nat, minor: nat)
    requires minor < 256
    ensures Block(ctrlno, refnr, minor / 256) == ctrlno
  {
    assert minor / 256 == 0 && (refnr + 1) * 0 == 0;
  }

  lemma SmallMinorsIdentify(c: Config, minor1: nat, minor2: nat)
    requires c.pcount >= 1 && minor1 < 256 && minor2 < 256
    requires DiskIndex(c, minor1) == DiskIndex(c, minor2) && PartIndex(c, minor1) == PartIndex(c, minor2)
    ensures minor1 == minor2
  {
    assert minor1 % 256 == minor1 && minor2 % 256 == minor2;
    QuotientAndRemainder(minor1, c.pcount);
    QuotientAndRemainder(minor2, c.pcount);
  }

  /** Majors with one base major and controller numbers of their own, up to the reference count. */
  ghost predicate Family(t: Table, m1: nat, m2: nat) {
    && Siblings(t, m1, m2)
    && var e1, e2 := t.slots[m1].value, t.slots[m2].value;
       && e1.base == e2.base && (e1.ctrlno == e2.ctrlno ==> m1 == m2)
       && e1.ctrlno <= t.refnr[e1.base] && e2.ctrlno <= t.refnr[e2.base]
  }

  /** And with one base major, such as all indirect records of one direct record have, names differ for all minors. */
  lemma FamilyNamesAreDistinct(t: Table, m1: nat, minor1: nat, m2: nat, minor2: nat)
    requires Family(t, m1, m2) && PlainMajor(t, m1) && PlainMajor(t, m2)
    requires Ordinary(t, m1, minor1) && Ordinary(t, m2, minor2)
    requires NameOf(t, m1, minor1) == NameOf(t, m2, minor2)
    ensures m1 == m2 && minor1 == minor2
  {
    var e1, e2 := t.slots[m1].value, t.slots[m2].value;
    RangeNeedsPartitions(ConfigOf(t, m1), minor1);
    SiblingNamesIff(t, m1, minor1, m2, minor2);
    BlocksIdentify(ConfigOf(t, m1), t.refnr[e1.base], e1.ctrlno, minor1, e2.ctrlno, minor2);
  }

  // ----- An indirect record that refers to an indirect one

  /** A direct record for major 8, an indirect one that refers to it, and two that refer to that one. */
  function NestedRecords(direct: Record): seq<Record> {
    [direct, Short(9, 8, 0), Short(10, 9, 0), Short(11, 9, 2)]
  }

  /** The table of these records: all four majors share a template, but 8 and 10 do not share a reference count. */
  lemma NestedTable(direct: Record)
    requires direct.Full? && direct.major == 8 && !IsException(direct)
    ensures UniqueMajors(NestedRecords(direct)) && Load(Empty(), NestedRecords(direct)).Ok?
    ensures var t := Load(Empty(), NestedRecords(direct)).value;
            && Invariant(t)
            && t.slots[8] == Some(Entry(true, direct.ctrlno, 8, Some(0)))
            && t.slots[10] == Some(Entry(false, 0, 9, Some(0)))
            && t.refnr[8] == 1 && t.refnr[9] == 2 && t.templates == [Template(Cooked(direct), None)]
  {
    var rs := NestedRecords(direct);
    UniqueMajorsMakeSoundTable(rs);
    assert rs[..3] == [direct, Short(9, 8, 0), Short(10, 9, 0)] && rs[..3][..2] == [direct, Short(9, 8, 0)];
    assert rs[..3][..2][..1] == [direct] && [direct][..0] == [];
    var t1 := Step(Empty(), direct).value;
    assert Load(Empty(), []) == Ok(Empty());
    assert Load(Empty(), [direct]) == Ok(t1);
    var t2 := Step(t1, Short(9, 8, 0)).value;
    assert Load(Empty(), rs[..3][..2]) == Ok(t2);
    var t3 := Step(t2, Short(10, 9, 0)).value;
    assert Load(Empty(), rs[..3]) == Ok(t3);
    assert Load(Empty(), rs) == Step(t3, Short(11, 9, 2));
  }

  /**
    Two devices of this sound table with one name, although their controllers differ, are within
    the reference counts of their base majors, and share the template: both are disk 48.
   */
  lemma NestedMajorsShareNames(direct: Record)
    requires direct == Full(8, "sd", "*", 1, "", Letters, 16, "*", 16)
    ensures Load(Empty(), NestedRecords(direct)).Ok?
    ensures var t := Load(Empty(), NestedRecords(direct)).value;
            && Siblings(t, 8, 10) && PlainMajor(t, 8) && PlainMajor(t, 10)
            && Ordinary(t, 8, 256) && Ordinary(t, 10, 256)
            && t.slots[8].value.ctrlno == 1 <= t.refnr[t.slots[8].value.base]
            && t.slots[10].value.ctrlno == 0 <= t.refnr[t.slots[10].value.base]
            && NameOf(t, 8, 256) == NameOf(t, 10, 256)
  {
    NestedTable(direct);
    var t := Load(Empty(), NestedRecords(direct)).value;
    SoundTableHasNoNull(t);
    assert BlockOf(t, 8, 256) == 3 == BlockOf(t, 10, 256);
    SiblingNamesIff(t, 8, 256, 10, 256);
  }

  // ----- Decimal disk numerals right in front of the partition number

  /** The numerals of 1 and of 11. */
  lemma OneAndEleven(one: nat, eleven: nat) returns (s: string)
    requires one == 1 && eleven == 11
    ensures Ito10(one) == s && Ito10(eleven) == s + s
  {
    s := "1";
    assert (s + s)[..1] == s;
    Ito10RoundTrip(one, s);
    Ito10RoundTrip(eleven, s + s);
  }

  /**
    Partition 1 of disk 1 is named like disk 11. That the templates are separated is sufficient
    for distinct names; with few disks or partitions, names can be distinct without it.
   */
  lemma UnseparatedNamesCoincide(c: Config, refnr: nat)
    requires !c.explicit && c.unit.Decimal? && c.partPrefix == "" && c.dcount == c.pcount == 16
    ensures NameText(c, 0, refnr, 17) == NameText(c, 0, refnr, 176) && InRange(c, 17) && InRange(c, 176)
  {
    var s := OneAndEleven(1, 11);
    assert PartIndex(c, 17) == 1 && PartIndex(c, 176) == 0;
    assert s + ("" + s) == (s + s) + "";
  }

  // ----- Templates with an explicit controller number

  /** The disk number is then the index of the disk: neither the controller nor the high bits of the minor are added. */
  lemma ExplicitDisk(c: Config, ctrlno: nat, refnr: nat, minor: nat)
    requires c.explicit && c.pcount >= 1 && minor <= MAX_MINOR
    ensures DiskNumber(c, ctrlno, refnr, minor / 256, DiskIndex(c, minor)) == DiskIndex(c, minor) <= 255
  {
    QuotientAndRemainder(minor % 256, c.pcount);
  }

  /** Two minors of a major have one name if and only if they agree in the disk index and in the partition index. */
  lemma ExplicitNamesIff(c: Config, ctrlno: nat, refnr: nat, minor1: nat, minor2: nat)
    requires c.explicit && c.pcount >= 1 && Separated(c) && minor1 <= MAX_MINOR && minor2 <= MAX_MINOR
    ensures NameText(c, ctrlno, refnr, minor1) == NameText(c, ctrlno, refnr, minor2)
            <==> (DiskIndex(c, minor1) == DiskIndex(c, minor2) && PartIndex(c, minor1) == PartIndex(c, minor2))
  {
    var n1, n2 := DiskIndex(c, minor1), DiskIndex(c, minor2);
    var r1, r2 := PartIndex(c, minor1), PartIndex(c, minor2);
    ExplicitDisk(c, ctrlno, refnr, minor1);
    ExplicitDisk(c, ctrlno, refnr, minor2);
    PartIsSmall(c, minor1);
    PartIsSmall(c, minor2);
    NumbersIff(c, n1, r1, n2, r2);
    SameFronts(Front(c, ctrlno), DiskNumeral(c, n1) + PartText(c, r1), DiskNumeral(c, n2) + PartText(c, r2));
  }

  /** The controller number can be told from what follows it: a disk prefix that starts with no digit, or letters. */
  predicate StopsNumber(c: Config) {
    if c.diskPrefix == "" then c.unit.Letters? else !('0' <= c.diskPrefix[0] <= '9')
  }

  /** Across the controllers of such a template, names are equal if and only if the controller is the same as well. */
  lemma ExplicitControllersIff(c: Config, ctrl1: nat, refnr1: nat, minor1: nat, ctrl2: nat, refnr2: nat, minor2: nat)
    requires c.explicit && c.pcount >= 1 && Separated(c) && StopsNumber(c) && minor1 <= MAX_MINOR && minor2 <= MAX_MINOR
    ensures NameText(c, ctrl1, refnr1, minor1) == NameText(c, ctrl2, refnr2, minor2)
            <==> (U32(ctrl1) == U32(ctrl2) && DiskIndex(c, minor1) == DiskIndex(c, minor2)
                  && PartIndex(c, minor1) == PartIndex(c, minor2))
  {
    var n1, n2 := DiskIndex(c, minor1), DiskIndex(c, minor2);
    var r1, r2 := PartIndex(c, minor1), PartIndex(c, minor2);
    ExplicitDisk(c, ctrl1, refnr1, minor1);
    ExplicitDisk(c, ctrl2, refnr2, minor2);
    PartIsSmall(c, minor1);
    PartIsSmall(c, minor2);
    NumbersIff(c, n1, r1, n2, r2);
    var t1, t2 := DiskNumeral(c, n1) + PartText(c, r1), DiskNumeral(c, n2) + PartText(c, r2);
    ExplicitText(c, ctrl1, t1);
    ExplicitText(c, ctrl2, t2);
    SameFronts(c.prefix, Printed(ctrl1) + (c.diskPrefix + t1), Printed(ctrl2) + (c.diskPrefix + t2));
    SameFronts(c.diskPrefix, t1, t2);
    AfterNumber(c, n1, r1);
    AfterNumber(c, n2, r2);
    PrintedIff(ctrl1, c.diskPrefix + t1, ctrl2, c.diskPrefix + t2);
  }

  lemma ExplicitText(c: Config, ctrlno: nat, t: string)
    requires c.explicit
    ensures Front(c, ctrlno) + t == c.prefix + (Printed(ctrlno) + (c.diskPrefix + t))
  {
  }

  predicate StartsWithDigit(s: string) {
    s != "" && '0' <= s[0] <= '9'
  }

  lemma AfterNumber(c: Config, n: nat, r: nat)
    requires StopsNumber(c) && n <= 255
    ensures !StartsWithDigit(c.diskPrefix + (DiskNumeral(c, n) + PartText(c, r)))
  {
    if c.diskPrefix == "" {
      Ito26RoundTrip(n);
      assert DiskNumeral(c, n) != "" && IsLetters(DiskNumeral(c, n));
    }
  }

  /** A printed number: a sign or none, and digits. */
  lemma PrintedParts(n: nat) returns (negative: bool, d: string)
    ensures Printed(n) == (if negative then "-" else "") + d && IsDigits(d) && d != ""
    ensures negative == (U32(n) >= 0x8000_0000)
    ensures d == Ito10(if negative then TWO_32 - U32(n) else U32(n))
  {
    var u := U32(n);
    negative := u >= 0x8000_0000;
    var m := if negative then TWO_32 - u else u;
    d := Ito10(m);
    Ito10RoundTrip(m, "0");
    if !negative { assert "" + d == d; }
  }

  lemma PrintedIff(a: nat, s: string, b: nat, t: string)
    requires !StartsWithDigit(s) && !StartsWithDigit(t)
    ensures Printed(a) + s == Printed(b) + t <==> U32(a) == U32(b) && s == t
  {
    var na, da := PrintedParts(a);
    var nb, db := PrintedParts(b);
    if Printed(a) + s == Printed(b) + t {
      assert (Printed(a) + s)[0] == if na then '-' else da[0];
      assert (Printed(b) + t)[0] == if nb then '-' else db[0];
      var sign := if na then "-" else "";
      assert sign + (da + s) == Printed(a) + s && sign + (db + t) == Printed(b) + t;
      SameFronts(sign, da + s, db + t);
      LeadingDigits(da, s, db, t);
      LeadingDigits(db, t, da, s);
      SameFront(da, s, db, t);
      Ito10RoundTrip(if na then TWO_32 - U32(a) else U32(a), da);
      Ito10RoundTrip(if nb then TWO_32 - U32(b) else U32(b), db);
    } else if U32(a) == U32(b) {
      assert Printed(a) == Printed(b);
    }
  }

  lemma LeadingDigits(d: string, s: string, e: string, t: string)
    requires IsDigits(e) && d + s == e + t
    ensures |d| < |e| ==> StartsWithDigit(s)
  {
    var u := d + s;
    assert u == e + t;
    if |d| < |e| {
      assert u[|d|] == e[|d|] && |s| > 0 && u[|d|] == s[0];
    }
  }

  /** A whole disk of such a template with a decimal numeral right behind the controller number. */
  lemma ExplicitWhole(c: Config, ctrlno: nat, refnr: nat, minor: nat, disk: nat)
    requires c.explicit && c.unit.Decimal? && c.diskPrefix == "" && c.pcount == 16
    requires ctrlno < 256 && minor < 256 && minor == 16 * disk
    ensures NameText(c, ctrlno, refnr, minor) == c.prefix + (Ito10(ctrlno) + Ito10(disk))
  {
    ExplicitDisk(c, ctrlno, refnr, minor);
    assert DiskIndex(c, minor) == disk && PartIndex(c, minor) == 0;
    assert c.prefix + Printed(ctrlno) + "" + (Ito10(disk) + "") == c.prefix + (Ito10(ctrlno) + Ito10(disk));
  }

  /** Otherwise disk 11 of controller 1 can be named like disk 1 of controller 11. */
  lemma ExplicitControllersCoincide(c: Config, refnr: nat)
    requires c.explicit && c.unit.Decimal? && c.diskPrefix == "" && c.dcount == c.pcount == 16
    ensures NameText(c, 1, refnr, 176) == NameText(c, 11, refnr, 16) && InRange(c, 176) && InRange(c, 16)
  {
    var s := OneAndEleven(1, 11);
    ExplicitWhole(c, 1, refnr, 176, 11);
    ExplicitWhole(c, 11, refnr, 16, 1);
    assert s + (s + s) == (s + s) + s;
  }

  /** So the names of a major with minors below 256 only are distinct. */
  lemma ExplicitNamesOfSmallMinors(c: Config, ctrlno: nat, refnr: nat, minor1: nat, minor2: nat)
    requires c.explicit && c.pcount >= 1 && Separated(c) && minor1 < 256 && minor2 < 256
    requires NameText(c, ctrlno, refnr, minor1) == NameText(c, ctrlno, refnr, minor2)
    ensures minor1 == minor2
  {
    ExplicitNamesIff(c, ctrlno, refnr, minor1, minor2);
    SmallMinorsIdentify(c, minor1, minor2);
  }

  /** And larger ones are not: minors 0 and 256 * pcount have one name. */
  lemma ExplicitControllerRepeatsNames(c: Config, ctrlno: nat, refnr: nat)
    requires c.explicit && 1 <= c.pcount <= 4095
    ensures NameText(c, ctrlno, refnr, 0) == NameText(c, ctrlno, refnr, 256 * c.pcount)
    ensures InRange(c, 0) <==> InRange(c, 256 * c.pcount)
  {
    var m := 256 * c.pcount;
    MultipleMod(256, c.pcount);
    MultipleMod(c.pcount, 256);
  }
}
