/** The names that ioc_name gives once a file has been read, in terms of the fields of its records. */
module DeviceRecords {
  import opened Wrappers
  import opened Arithmetic
  import opened Numerals
  import opened DeviceTable
  import opened DeviceName

  // ----- What the records say

  predicate Starts(s: string, c: char) {
    s != "" && s[0] == c
  }

  /** A record that defines a major and a template. */
  predicate Direct(r: Record) {
    r.Full? && 0 < r.major < 511 && !Starts(r.cfmt, 'x')
  }

  /** The direct record that a major leads to, through indirect records that refer to majors already seen. */
  function Root(rs: seq<Record>, m: nat): (k: Option<nat>)
    ensures k.Some? ==> k.value < |rs| && Direct(rs[k.value])
    decreases |rs|, 0
  {
    if rs == [] then None
    else
      var n := |rs| - 1;
      var r, before := rs[n], rs[..n];
      if Direct(r) && r.major == m then Some(n)
      else if Refers(before, r) && r.major == m then Root(before, r.indirect)
      else Root(before, m)
  }

  /** An indirect record that is not ignored behind the records `before`. */
  predicate Refers(before: seq<Record>, r: Record)
    decreases |before|, 1
  {
    r.Short? && r.major <= 511 && 0 < r.indirect <= 511 && Root(before, r.indirect).Some?
  }

  /** Record j sets its major. */
  predicate Accepted(rs: seq<Record>, j: nat) {
    j < |rs| && (Direct(rs[j]) || Refers(rs[..j], rs[j]))
  }

  /** Record j is an exception for the template of record k. */
  predicate Labels(rs: seq<Record>, j: nat, k: nat) {
    && j < |rs| && rs[j].Full? && 0 < rs[j].major < 511 && Starts(rs[j].cfmt, 'x')
    && Root(rs[..j], rs[j].major) == Some(k)
  }

  ghost predicate FirstLabel(rs: seq<Record>, j: nat, k: nat) {
    Labels(rs, j, k) && forall i: nat :: i < j ==> !Labels(rs, i, k)
  }

  /** The number of direct records. */
  function Directs(rs: seq<Record>): nat {
    if rs == [] then 0 else Directs(rs[..|rs| - 1]) + if Direct(rs[|rs| - 1]) then 1 else 0
  }

  /** The number of indirect records that refer to major b. */
  function Followers(rs: seq<Record>, b: nat): nat {
    if rs == [] then 0
    else
      var n := |rs| - 1;
      Followers(rs[..n], b) + if Refers(rs[..n], rs[n]) && rs[n].indirect == b then 1 else 0
  }

  // ----- One record

  /** The configuration cooked from a direct record. */
  predicate CookedFrom(c: Config, r: Record)
    requires r.Full?
  {
    && c.prefix == r.name + (if Starts(r.cfmt, '*') then "" else r.cfmt)
    && c.explicit == !Starts(r.cfmt, '*')
    && c.diskPrefix == r.diskPrefix && c.unit == r.unit && c.dcount == r.dcount && c.pcount == r.pcount
    && c.partPrefix == if Starts(r.pfmt, '*') then "" else r.pfmt
  }

  predicate Reference(t: Table, r: Record)
    requires Sized(t)
  {
    r.Short? && r.major <= 511 && 0 < r.indirect <= 511 && t.slots[r.indirect].Some?
  }

  predicate Decorates(t: Table, r: Record, i: nat)
    requires Sized(t)
  {
    && r.Full? && 0 < r.major < 511 && Starts(r.cfmt, 'x')
    && t.slots[r.major].Some? && t.slots[r.major].value.tmpl == Some(i)
  }

  lemma SlotStep(t: Table, r: Record, u: Table, m: nat)
    requires Proper(t) && Step(t, r) == Ok(u) && m <= 511
    ensures u.slots[m] ==
            if Direct(r) && r.major == m then Some(Entry(true, r.ctrlno, m, Some(|t.templates|)))
            else if Reference(t, r) && r.major == m then Some(Entry(false, r.ctrlno, r.indirect, SharedTemplate(t, r)))
            else t.slots[m]
    ensures u.refnr[m] == t.refnr[m] + if Reference(t, r) && r.indirect == m then 1 else 0
  {
  }

  // ----- What the table holds

  /** `t` is what a file with unique majors leaves, and `was` what it had left before its last record. */
  ghost predicate LastStep(rs: seq<Record>, was: Table, t: Table) {
    && rs != [] && UniqueMajors(rs[..|rs| - 1]) && Load(Empty(), rs[..|rs| - 1]) == Ok(was) && Proper(was)
    && Step(was, rs[|rs| - 1]) == Ok(t)
  }

  /** A record that sets a major finds it not set. */
  ghost predicate NotYetSet(was: Table, r: Record)
    requires Sized(was)
  {
    Sets(r) && r.major <= 511 ==> was.slots[r.major].None?
  }

  lemma LastLoaded(rs: seq<Record>, t: Table) returns (was: Table)
    requires UniqueMajors(rs) && Load(Empty(), rs) == Ok(t) && rs != []
    ensures LastStep(rs, was, t) && NotYetSet(was, rs[|rs| - 1])
  {
    var n := |rs| - 1;
    UniqueMajorsMakeSoundTable(rs[..n]);
    was := Load(Empty(), rs[..n]).value;
  }

  /** A major is set if and only if it leads to a direct record; its template is the one made for that record. */
  ghost predicate Leads(rs: seq<Record>, t: Table, m: nat) {
    && Sized(t) && m <= 511
    && (t.slots[m].Some? <==> Root(rs, m).Some?)
    && (t.slots[m].Some? ==> t.slots[m].value.tmpl == Some(Directs(rs[..Root(rs, m).value])))
  }

  lemma {:induction false} TemplatesMade(rs: seq<Record>, t: Table)
    requires UniqueMajors(rs) && Load(Empty(), rs) == Ok(t)
    ensures |t.templates| == Directs(rs)
  {
    if rs != [] {
      var was := LastLoaded(rs, t);
      TemplatesMade(rs[..|rs| - 1], was);
    }
  }

  lemma {:induction false} MajorLeads(rs: seq<Record>, t: Table, m: nat)
    requires UniqueMajors(rs) && Load(Empty(), rs) == Ok(t) && m <= 511
    ensures Leads(rs, t, m)
  {
    if rs != [] {
      var n := |rs| - 1;
      var r := rs[n];
      var was := LastLoaded(rs, t);
      MajorLeads(rs[..n], was, m);
      if r.Short? && 0 < r.indirect <= 511 { MajorLeads(rs[..n], was, r.indirect); }
      TemplatesMade(rs[..n], was);
      SlotStep(was, r, t, m);
      assert forall k: nat :: k < n ==> rs[..n][..k] == rs[..k];
    }
  }

  lemma {:induction false} TemplateOfRecord(rs: seq<Record>, t: Table, k: nat)
    requires UniqueMajors(rs) && Load(Empty(), rs) == Ok(t) && k < |rs| && Direct(rs[k])
    ensures var i := Directs(rs[..k]); i < |t.templates| && CookedFrom(t.templates[i].config, rs[k])
  {
    var n := |rs| - 1;
    var was := LastLoaded(rs, t);
    TemplatesMade(rs[..n], was);
    if k < n {
      TemplateOfRecord(rs[..n], was, k);
      assert rs[..n][..k] == rs[..k];
    }
  }

  /** The entry of a major is that of the record that set it. */
  lemma {:induction false} EntryOfRecord(rs: seq<Record>, t: Table, j: nat)
    requires UniqueMajors(rs) && Load(Empty(), rs) == Ok(t) && Accepted(rs, j)
    ensures rs[j].major < |t.slots|
    ensures var r, e := rs[j], t.slots[rs[j].major];
            e.Some? && e.value.ctrlno == r.ctrlno && e.value.base == if r.Short? then r.indirect else r.major
  {
    var n := |rs| - 1;
    var was := LastLoaded(rs, t);
    SlotStep(was, rs[n], t, rs[j].major);
    if j < n {
      assert rs[..n][..j] == rs[..j];
      EntryOfRecord(rs[..n], was, j);
    } else if rs[j].Short? {
      MajorLeads(rs[..n], was, rs[j].indirect);
    }
  }

  lemma {:induction false} CountOfMajor(rs: seq<Record>, t: Table, b: nat)
    requires UniqueMajors(rs) && Load(Empty(), rs) == Ok(t) && b <= 511
    ensures b < |t.refnr| && t.refnr[b] == Followers(rs, b)
  {
    if rs != [] {
      var n := |rs| - 1;
      var was := LastLoaded(rs, t);
      CountOfMajor(rs[..n], was, b);
      SlotStep(was, rs[n], t, b);
      if rs[n].Short? && 0 < rs[n].indirect <= 511 { MajorLeads(rs[..n], was, rs[n].indirect); }
    }
  }

  lemma {:induction false} DirectsGrow(rs: seq<Record>, i: nat, k: nat)
    requires i < k <= |rs| && Direct(rs[i])
    ensures Directs(rs[..i]) < Directs(rs[..k])
    decreases k
  {
    assert rs[..k][..k - 1] == rs[..k - 1];
    if i < k - 1 { DirectsGrow(rs, i, k - 1); }
  }

  /** Exceptions are matched by their direct record. */
  lemma DecoratesIff(rs: seq<Record>, was: Table, k: nat)
    requires rs != [] && UniqueMajors(rs[..|rs| - 1]) && Load(Empty(), rs[..|rs| - 1]) == Ok(was) && Sized(was)
    requires k < |rs| - 1 && Direct(rs[k])
    ensures Decorates(was, rs[|rs| - 1], Directs(rs[..k])) <==> Labels(rs, |rs| - 1, k)
  {
    var n := |rs| - 1;
    var p, r := rs[..n], rs[n];
    if r.Full? && 0 < r.major < 511 {
      MajorLeads(p, was, r.major);
      if Root(p, r.major).Some? {
        var i := Root(p, r.major).value;
        assert p[..i] == rs[..i];
        if i < k { DirectsGrow(rs, i, k); }
        if k < i { DirectsGrow(rs, k, i); }
      }
    }
  }

  ghost predicate Labelled(rs: seq<Record>, k: nat) {
    exists i: nat :: Labels(rs, i, k)
  }

  lemma LabelledStep(rs: seq<Record>, k: nat, j: nat)
    requires rs != []
    ensures var n := |rs| - 1;
            && (Labelled(rs, k) <==> Labelled(rs[..n], k) || Labels(rs, n, k))
            && (FirstLabel(rs, j, k) ==> if j < n then FirstLabel(rs[..n], j, k) else j == n && !Labelled(rs[..n], k))
  {
    var n := |rs| - 1;
    forall i: nat | i < n ensures Labels(rs, i, k) <==> Labels(rs[..n], i, k) { assert rs[..n][..i] == rs[..i]; }
    if Labelled(rs[..n], k) {
      var i: nat :| Labels(rs[..n], i, k);
      assert Labels(rs, i, k);
    }
    if Labelled(rs, k) && !Labels(rs, n, k) {
      var i: nat :| Labels(rs, i, k);
      assert Labels(rs[..n], i, k);
    }
  }

  /** The exception is the one of the first record that labels template k. */
  ghost predicate ExceptionIs(rs: seq<Record>, ext: Option<Exception>, k: nat, j: nat) {
    && (ext.Some? <==> Labelled(rs, k))
    && (FirstLabel(rs, j, k) ==> ext == Some(Exception(rs[j].ctrlno, rs[j].name)))
  }

  lemma ExceptionStep(rs: seq<Record>, ext: Option<Exception>, k: nat, j: nat)
    requires rs != [] && ExceptionIs(rs[..|rs| - 1], ext, k, j)
    ensures var n := |rs| - 1; var r := rs[n];
            Labels(rs, n, k) ==> ExceptionIs(rs, if ext.Some? then ext else Some(Exception(r.ctrlno, r.name)), k, j)
    ensures !Labels(rs, |rs| - 1, k) ==> ExceptionIs(rs, ext, k, j)
  {
    LabelledStep(rs, k, j);
  }

  /** A template has the exception of the first record that labels it. */
  lemma {:induction false} ExceptionOfRecord(rs: seq<Record>, t: Table, k: nat, j: nat)
    requires UniqueMajors(rs) && Load(Empty(), rs) == Ok(t) && k < |rs| && Direct(rs[k])
    ensures Directs(rs[..k]) < |t.templates| && ExceptionIs(rs, t.templates[Directs(rs[..k])].ext, k, j)
  {
    var n := |rs| - 1;
    var was := LastLoaded(rs, t);
    var i := Directs(rs[..k]);
    TemplatesMade(rs[..n], was);
    if k < n {
      ExceptionOfRecord(rs[..n], was, k, j);
      assert rs[..n][..k] == rs[..k];
      DecoratesIff(rs, was, k);
      ExceptionStep(rs, was.templates[i].ext, k, j);
    }
  }

  // ----- Names

  /** The minor is not that of the exception record of template k. */
  ghost predicate NotExcepted(rs: seq<Record>, k: nat, minor: nat) {
    forall x: nat :: FirstLabel(rs, x, k) ==> rs[x].ctrlno != minor
  }

  /** The low byte of the minor is one of the minors of a controller, which are counted in 32 bits. */
  predicate HasDisk(r: Record, minor: nat)
    requires r.Full?
  {
    minor % 256 < (r.dcount * r.pcount) % 0x1_0000_0000
  }

  /** The disk number, in 32 bits; majors that follow the controller's own shift it when it is implicit. */
  function Disk(r: Record, ctrlno: nat, followers: nat, minor: nat): nat
    requires r.Full? && r.pcount > 0
  {
    if Starts(r.cfmt, '*') then
      (minor % 256 / r.pcount + ctrlno * r.dcount
       + if minor >= 256 then r.dcount * (followers + 1) * (minor / 256) else 0) % 0x1_0000_0000
    else
      minor % 256 / r.pcount
  }

  /** A name put together from the fields of direct record r, for a controller and a minor. */
  function Assembled(r: Record, ctrlno: nat, followers: nat, minor: nat): string
    requires r.Full? && r.pcount > 0 && minor <= MAX_MINOR
  {
    var n, part := Disk(r, ctrlno, followers, minor), minor % r.pcount;
    r.name + (if Starts(r.cfmt, '*') then "" else r.cfmt + Printed(ctrlno)) + r.diskPrefix
    + (if r.unit.Letters? then Ito26(n) else Ito10(n))
    + (if part == 0 then "" else (if Starts(r.pfmt, '*') then "" else r.pfmt) + Ito10(part))
  }

  lemma SmallRemainder(m: nat, p: nat)
    requires p > 0
    ensures 0 <= m % p <= m && 0 <= m / p <= m
  {
    QuotientAndRemainder(m, p);
  }

  lemma WordSumIs(near: nat, far: nat, large: bool, disk: nat)
    requires !large ==> far == 0
    ensures WordSum(near, far, large, false, disk) == (disk + near + far) % 0x1_0000_0000
  {
    var m: nat := TWO_32;
    var base := if large then U32(U32(near) + far) else U32(near);
    SumInModulus(near, far, m);
    assert base == (near + far) % m;
    SumInModulus(near + far, disk, m);
  }

  lemma DiskIs(c: Config, r: Record, ctrlno: nat, followers: nat, minor: nat)
    requires r.Full? && CookedFrom(c, r) && r.pcount > 0
    ensures DiskNumber(c, ctrlno, followers, minor / 256, DiskIndex(c, minor)) == Disk(r, ctrlno, followers, minor)
  {
    var high, disk := minor / 256, DiskIndex(c, minor);
    var near, far := ctrlno * c.dcount, c.dcount * (followers + 1) * high;
    SmallRemainder(minor % 256, r.pcount);
    assert high >= 1 <==> minor >= 256;
    if !c.explicit {
      WordSumIs(near, far, high >= 1, disk);
    }
  }

  lemma TextIs(c: Config, r: Record, ctrlno: nat, followers: nat, minor: nat)
    requires r.Full? && CookedFrom(c, r) && r.pcount > 0 && minor <= MAX_MINOR
    ensures NameText(c, ctrlno, followers, minor) == Assembled(r, ctrlno, followers, minor)
  {
    DiskIs(c, r, ctrlno, followers, minor);
    SmallRemainder(minor, r.pcount);
    var n, part := Disk(r, ctrlno, followers, minor), minor % r.pcount;
    var cfmt := if Starts(r.cfmt, '*') then "" else r.cfmt;
    var ctrl := if c.explicit then Printed(ctrlno) else "";
    var numeral := DiskNumeral(c, n);
    var tail := PartText(c, part);
    assert NameText(c, ctrlno, followers, minor) == (r.name + cfmt) + ctrl + r.diskPrefix + (numeral + tail);
    Regroup(r.name, cfmt, ctrl, r.diskPrefix, numeral, tail);
    assert Assembled(r, ctrlno, followers, minor) == r.name + (cfmt + ctrl) + r.diskPrefix + numeral + tail;
  }

  lemma Regroup(a: string, b: string, c: string, d: string, e: string, f: string)
    ensures (a + b) + c + d + (e + f) == a + (b + c) + d + e + f
  {
  }

  /** %d writes numbers below 2^31 as they are, and the others as negative numbers. */
  lemma PrintedIs(n: nat, s: string)
    requires n < 0x1_0000_0000
    ensures n < 0x8000_0000 ==> Canonical(Printed(n)) && Value10(Printed(n)) == n
    ensures n >= 0x8000_0000 ==> var p := Printed(n);
              p != "" && p[0] == '-' && Canonical(p[1..]) && n + Value10(p[1..]) == 0x1_0000_0000
  {
    if n < 0x8000_0000 { Ito10RoundTrip(n, ""); } else { Ito10RoundTrip(TWO_32 - n, ""); }
  }

  lemma {:induction false} RootOfRecord(rs: seq<Record>, j: nat)
    requires UniqueMajors(rs) && Accepted(rs, j)
    ensures Root(rs, rs[j].major) == if Direct(rs[j]) then Some(j) else Root(rs[..j], rs[j].indirect)
  {
    var n := |rs| - 1;
    if j < n {
      assert rs[..n][..j] == rs[..j];
      assert Sets(rs[j]);
      RootOfRecord(rs[..n], j);
    }
  }

  /** The major of the entry that record j makes shares the template of record k. */
  lemma NameFromEntry(rs: seq<Record>, t: Table, j: nat, k: nat) returns (c: Config, ext: Option<Exception>)
    requires UniqueMajors(rs) && Load(Empty(), rs) == Ok(t) && NoNull(t)
    requires Accepted(rs, j) && Root(rs, rs[j].major) == Some(k)
    ensures CookedFrom(c, rs[k]) && forall x: nat :: ExceptionIs(rs, ext, k, x)
    ensures var base := if rs[j].Short? then rs[j].indirect else rs[j].major;
            forall minor: nat :: minor <= MAX_MINOR ==>
              var excepted, name := ext.Some? && ext.value.minor == minor, NameOf(t, rs[j].major, minor);
              && (!InRange(c, minor) ==> name == Some("nodev"))
              && (InRange(c, minor) && excepted ==> name == Some(ext.value.name))
              && (InRange(c, minor) && !excepted && c.pcount > 0 ==>
                    name == Some(NameText(c, rs[j].ctrlno, Followers(rs, base), minor)))
  {
    var i := Directs(rs[..k]);
    MajorLeads(rs, t, rs[j].major);
    EntryOfRecord(rs, t, j);
    TemplateOfRecord(rs, t, k);
    CountOfMajor(rs, t, if rs[j].Short? then rs[j].indirect else rs[j].major);
    forall x: nat ensures i < |t.templates| && ExceptionIs(rs, t.templates[i].ext, k, x) {
      ExceptionOfRecord(rs, t, k, x);
    }
    c, ext := t.templates[i].config, t.templates[i].ext;
  }

  /**
    The names of a major that record j sets and that leads to direct record k: none if there is no
    such disk, that of the first exception record if it has this minor, or else a name assembled
    from the fields of record k and the controller number of record j.
   */
  lemma NameOfMajor(rs: seq<Record>, t: Table, j: nat, k: nat, x: nat, minor: nat)
    requires UniqueMajors(rs) && Load(Empty(), rs) == Ok(t) && NoNull(t)
    requires Accepted(rs, j) && Root(rs, rs[j].major) == Some(k) && minor <= MAX_MINOR
    ensures var r, base := rs[k], if rs[j].Short? then rs[j].indirect else rs[j].major;
            var name := NameOf(t, rs[j].major, minor);
            && (!HasDisk(r, minor) ==> name == Some("nodev"))
            && (HasDisk(r, minor) && FirstLabel(rs, x, k) && rs[x].ctrlno == minor ==> name == Some(rs[x].name))
            && (HasDisk(r, minor) && NotExcepted(rs, k, minor) ==>
                  r.pcount > 0 && name == Some(Assembled(r, rs[j].ctrlno, Followers(rs, base), minor)))
  {
    var base := if rs[j].Short? then rs[j].indirect else rs[j].major;
    var c, ext := NameFromEntry(rs, t, j, k);
    assert ExceptionIs(rs, ext, k, x);
    if Labelled(rs, k) {
      var y := FirstOfLabels(rs, k);
      assert ExceptionIs(rs, ext, k, y);
    }
    if InRange(c, minor) {
      RangeNeedsPartitions(c, minor);
      TextIs(c, rs[k], rs[j].ctrlno, Followers(rs, base), minor);
    }
  }

  lemma FirstOfLabels(rs: seq<Record>, k: nat) returns (x: nat)
    requires Labelled(rs, k)
    ensures FirstLabel(rs, x, k)
  {
    var i: nat :| Labels(rs, i, k);
    x := 0;
    while !Labels(rs, x, k)
      invariant x <= i && forall j: nat :: j < x ==> !Labels(rs, j, k)
      decreases i - x
    {
      x := x + 1;
    }
  }

  /** A major that no record sets has no devices. */
  lemma NameOfNoMajor(rs: seq<Record>, t: Table, m: nat, minor: nat)
    requires UniqueMajors(rs) && Load(Empty(), rs) == Ok(t) && NoNull(t)
    requires m <= 511 && Root(rs, m).None? && minor <= MAX_MINOR
    ensures NameOf(t, m, minor) == Some("nodev")
  {
    MajorLeads(rs, t, m);
  }

  /** A minor of disk q and partition `part` is divided into these. */
  lemma Divided(q: nat, p: nat, part: nat, minor: nat)
    requires p > 0 && minor == q * p + part && part < p
    ensures minor / p == q && minor % p == part
  {
    QuotientAndRemainder(minor, p);
    DigitsUnique(p, part, q, minor % p, minor / p);
  }

  lemma AssembledIs(r: Record, followers: nat, q: nat, part: nat, minor: nat, disk: nat)
    requires r.Full? && r.pcount > 0 && minor < 256 && minor == q * r.pcount + part && part < r.pcount
    requires part < 256 && disk < 0x1_0000_0000 && disk == q + if Starts(r.cfmt, '*') then r.ctrlno * r.dcount else 0
    ensures Assembled(r, r.ctrlno, followers, minor)
            == r.name + (if Starts(r.cfmt, '*') then "" else r.cfmt + Printed(r.ctrlno)) + r.diskPrefix
               + (if r.unit.Letters? then Ito26(disk) else Ito10(disk))
               + (if part == 0 then "" else (if Starts(r.pfmt, '*') then "" else r.pfmt) + Ito10(part))
  {
    Divided(q, r.pcount, part, minor);
    assert minor % 256 == minor;
    assert Disk(r, r.ctrlno, followers, minor) == disk;
  }

  /** A minor below 256 of a direct record's own major, in full: partition `part` of its disk q. */
  lemma NameOfDirect(rs: seq<Record>, t: Table, k: nat, minor: nat, q: nat, part: nat, disk: nat)
    requires UniqueMajors(rs) && Load(Empty(), rs) == Ok(t) && NoNull(t) && k < |rs| && Direct(rs[k])
    requires minor == q * rs[k].pcount + part && part < rs[k].pcount && part < 256
    requires minor < 256 && HasDisk(rs[k], minor)
    requires NotExcepted(rs, k, minor)
    requires disk == q + (if Starts(rs[k].cfmt, '*') then rs[k].ctrlno * rs[k].dcount else 0) && disk < 0x1_0000_0000
    ensures var r := rs[k];
            NameOf(t, r.major, minor) ==
            Some(r.name + (if Starts(r.cfmt, '*') then "" else r.cfmt + Printed(r.ctrlno)) + r.diskPrefix
                 + (if r.unit.Letters? then Ito26(disk) else Ito10(disk))
                 + (if part == 0 then "" else (if Starts(r.pfmt, '*') then "" else r.pfmt) + Ito10(part)))
  {
    OrdinaryName(rs, t, k, minor);
    AssembledIs(rs[k], Followers(rs, rs[k].major), q, part, minor, disk);
  }

  lemma OrdinaryName(rs: seq<Record>, t: Table, k: nat, minor: nat)
    requires UniqueMajors(rs) && Load(Empty(), rs) == Ok(t) && NoNull(t) && k < |rs| && Direct(rs[k])
    requires minor < 256 && HasDisk(rs[k], minor)
    requires NotExcepted(rs, k, minor)
    ensures rs[k].pcount > 0
    ensures NameOf(t, rs[k].major, minor)
            == Some(Assembled(rs[k], rs[k].ctrlno, Followers(rs, rs[k].major), minor))
  {
    RootOfRecord(rs, k);
    NameOfMajor(rs, t, k, k, 0, minor);
  }
}
