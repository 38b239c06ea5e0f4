/**
  The table of block device majors that ioc_init builds from the records of the ioconf file,
  and the invariant that ties its entries, templates and reference counts together.
 */
module DeviceTable {
  import opened Wrappers

  const MAX_BLKDEV: nat := 511

  /** How a disk number is written: by ioc_ito26 or by ioc_ito10. */
  datatype Unit = Letters | Decimal

  /** The part of blk_config that never changes: text before the disk number and before the partition number. */
  datatype Config = Config(prefix: string, explicit: bool, diskPrefix: string, unit: Unit, partPrefix: string,
                           dcount: nat, pcount: nat)

  /** A minor with a name of its own. */
  datatype Exception = Exception(minor: nat, name: string)

  /** A blk_config: the configuration and the exception, if one was read. */
  datatype Template = Template(config: Config, ext: Option<Exception>)

  /** An ioc_entry. `base` is basemajor, and `tmpl` says which template blkp points to, if any. */
  datatype Entry = Entry(live: bool, ctrlno: nat, base: nat, tmpl: Option<nat>)

  /** A line of the file, split into fields: short (indirect) or full. Other lines change nothing. */
  datatype Record =
    | Short(major: nat, indirect: nat, ctrlno: nat)
    | Full(major: nat, name: string, cfmt: string, ctrlno: nat, diskPrefix: string, unit: Unit, dcount: nat,
           pfmt: string, pcount: nat)
    | Other

  datatype Table = Table(slots: seq<Option<Entry>>, refnr: seq<nat>, templates: seq<Template>)

  predicate Sized(t: Table) {
    |t.slots| == MAX_BLKDEV + 1 && |t.refnr| == MAX_BLKDEV + 1
  }

  function Empty(): Table {
    Table(seq(MAX_BLKDEV + 1, _ => None), seq(MAX_BLKDEV + 1, _ => 0), [])
  }

  predicate IsException(r: Record) {
    r.Full? && r.cfmt != "" && r.cfmt[0] == 'x'
  }

  /** The cooked formats of a full record. */
  function Cooked(r: Record): Config
    requires r.Full?
  {
    var implicit := r.cfmt != "" && r.cfmt[0] == '*';
    var partPrefix := if r.pfmt != "" && r.pfmt[0] == '*' then "" else r.pfmt;
    var prefix := if implicit then r.name else r.name + r.cfmt;
    Config(prefix, !implicit, r.diskPrefix, r.unit, partPrefix, r.dcount, r.pcount)
  }

  /** The major that a record would set, if it is not ignored. */
  predicate ShortAccepted(t: Table, r: Record)
    requires Sized(t) && r.Short?
  {
    0 < r.indirect <= MAX_BLKDEV && r.major <= MAX_BLKDEV && t.slots[r.indirect].Some?
  }

  predicate FullInRange(r: Record)
    requires r.Full?
  {
    0 < r.major < MAX_BLKDEV
  }

  /** A record that refers to its own major finds its own template pointer, still null. */
  function SharedTemplate(t: Table, r: Record): Option<nat>
    requires Sized(t) && r.Short? && ShortAccepted(t, r)
  {
    if r.major == r.indirect then None else t.slots[r.indirect].value.tmpl
  }

  predicate TemplatesExist(t: Table) {
    forall m :: 0 <= m < |t.slots| && t.slots[m].Some? && t.slots[m].value.tmpl.Some?
                ==> t.slots[m].value.tmpl.value < |t.templates|
  }

  predicate Proper(t: Table) {
    Sized(t) && TemplatesExist(t)
  }

  /** One turn of the loop of ioc_init. It fails where the program would use a null template pointer. */
  function Step(t: Table, r: Record): (u: Result<Table>)
    requires Proper(t)
    ensures u.Ok? ==> Proper(u.value) && |u.value.templates| >= |t.templates|
  {
    match r
    case Other => Ok(t)
    case Short(major, indirect, ctrlno) =>
      if !ShortAccepted(t, r) then Ok(t)
      else Ok(t.(slots := t.slots[major := Some(Entry(false, ctrlno, indirect, SharedTemplate(t, r)))],
                 refnr := t.refnr[indirect := t.refnr[indirect] + 1]))
    case Full(major, name, _, ctrlno, _, _, _, _, _) =>
      if !FullInRange(r) then Ok(t)
      else if IsException(r) then
        if t.slots[major].None? then Ok(t)
        else if t.slots[major].value.tmpl.None? then Fail
        else
          var k := t.slots[major].value.tmpl.value;
          if t.templates[k].ext.Some? then Ok(t)
          else Ok(t.(templates := t.templates[k := t.templates[k].(ext := Some(Exception(ctrlno, name)))]))
      else
        Ok(t.(slots := t.slots[major := Some(Entry(true, ctrlno, major, Some(|t.templates|)))],
              templates := t.templates + [Template(Cooked(r), None)]))
  }

  function Load(t: Table, rs: seq<Record>): (u: Result<Table>)
    requires Proper(t)
    ensures u.Ok? ==> Proper(u.value)
  {
    if rs == [] then Ok(t)
    else
      var u := Load(t, rs[..|rs| - 1]);
      if u.Ok? then Step(u.value, rs[|rs| - 1]) else Fail
  }

  // ----- The table invariant

  /** The indirect entries whose base is major `b`. */
  function Based(slots: seq<Option<Entry>>, b: nat): set<nat> {
    set m: nat | m < |slots| && slots[m].Some? && !slots[m].value.live && slots[m].value.base == b
  }

  /** An entry has a template, and shares it with the entry of its base major; a live one is its own base. */
  predicate SoundEntry(t: Table, m: nat)
    requires m < |t.slots|
  {
    t.slots[m].Some? ==>
      var e := t.slots[m].value;
      && e.tmpl.Some?
      && e.base < |t.slots| && t.slots[e.base].Some? && t.slots[e.base].value.tmpl == e.tmpl
      && (e.live ==> e.base == m)
  }

  ghost predicate Invariant(t: Table) {
    && Proper(t)
    && (forall m :: 0 <= m < |t.slots| ==> SoundEntry(t, m))
    && (forall b :: 0 <= b < |t.refnr| ==> t.refnr[b] == |Based(t.slots, b)|)
  }

  lemma EmptyIsSound()
    ensures Invariant(Empty())
  {
    var t := Empty();
    forall b | 0 <= b < |t.refnr| ensures t.refnr[b] == |Based(t.slots, b)| { assert Based(t.slots, b) == {}; }
  }

  /**
    What a caller of ioc_init could check of a record before the table takes it: its major is
    new; or it is direct and nothing is based on it; or everything based on it keeps its template.
   */
  predicate Harmless(t: Table, r: Record)
    requires Sized(t)
  {
    match r
    case Other => true
    case Short(major, indirect, _) =>
      ShortAccepted(t, r) && t.slots[major].Some? ==>
        && t.slots[major].value.live && major != indirect
        && (t.refnr[major] == 0 || t.slots[major].value.tmpl == t.slots[indirect].value.tmpl)
    case Full(major, _, _, _, _, _, _, _, _) =>
      FullInRange(r) && !IsException(r) && t.slots[major].Some? ==> t.slots[major].value.live && t.refnr[major] == 0
  }

  /** Setting one slot changes the sets of indirect entries by that slot alone. */
  lemma BasedStep(slots: seq<Option<Entry>>, m: nat, e: Entry, b: nat)
    requires m < |slots|
    ensures var s, s' := Based(slots, b), Based(slots[m := Some(e)], b);
            && (m in s <==> slots[m].Some? && !slots[m].value.live && slots[m].value.base == b)
            && (m in s' <==> !e.live && e.base == b)
            && |s'| == |s| + (if m in s' && m !in s then 1 else 0) - (if m in s && m !in s' then 1 else 0)
  {
    var s, s' := Based(slots, b), Based(slots[m := Some(e)], b);
    assert s' - {m} == s - {m};
    assert m in s ==> s == (s - {m}) + {m};
    assert m in s' ==> s' == (s' - {m}) + {m};
  }

  /** Somebody else is based on a live major exactly if its reference count is not zero. */
  lemma OthersBasedOn(t: Table, m: nat)
    requires Invariant(t) && m < |t.slots| && t.slots[m].Some? && t.slots[m].value.live
    ensures t.refnr[m] == 0 <==>
              forall j :: 0 <= j < |t.slots| && j != m && t.slots[j].Some? ==> t.slots[j].value.base != m
  {
    var s := Based(t.slots, m);
    if t.refnr[m] == 0 {
      forall j | 0 <= j < |t.slots| && j != m && t.slots[j].Some? ensures t.slots[j].value.base != m {
        assert SoundEntry(t, j) && j !in s;
      }
    } else {
      var j :| j in s;
    }
  }

  lemma NewSlotHasNoFollowers(t: Table, m: nat)
    requires Invariant(t) && m < |t.slots| && t.slots[m].None?
    ensures t.refnr[m] == 0
    ensures forall j :: 0 <= j < |t.slots| && t.slots[j].Some? ==> t.slots[j].value.base != m
  {
    forall j | 0 <= j < |t.slots| && t.slots[j].Some? ensures t.slots[j].value.base != m { assert SoundEntry(t, j); }
    assert Based(t.slots, m) == {};
  }

  /** A harmless record keeps the invariant. */
  lemma HarmlessKeepsInvariant(t: Table, r: Record)
    requires Invariant(t) && Harmless(t, r)
    ensures Step(t, r).Ok? && Invariant(Step(t, r).value)
  {
    match r
    case Other =>
    case Short(major, indirect, ctrlno) =>
      if ShortAccepted(t, r) { ShortKeepsInvariant(t, r); }
    case Full(major, _, _, _, _, _, _, _, _) =>
      if FullInRange(r) {
        if IsException(r) { ExceptionKeepsInvariant(t, r); } else { DirectKeepsInvariant(t, r); }
      }
  }

  lemma ExceptionKeepsInvariant(t: Table, r: Record)
    requires Invariant(t) && r.Full? && FullInRange(r) && IsException(r)
    ensures Step(t, r).Ok? && Invariant(Step(t, r).value)
  {
    assert SoundEntry(t, r.major);
    var u := Step(t, r).value;
    assert u.slots == t.slots;
    forall m | 0 <= m < |u.slots| ensures SoundEntry(u, m) { assert SoundEntry(t, m); }
  }

  lemma ShortKeepsInvariant(t: Table, r: Record)
    requires Invariant(t) && r.Short? && ShortAccepted(t, r) && Harmless(t, r)
    ensures Step(t, r).Ok? && Invariant(Step(t, r).value)
  {
    var u := Step(t, r).value;
    var e := u.slots[r.major].value;
    assert SoundEntry(t, r.indirect);
    if t.slots[r.major].Some? { OthersBasedOn(t, r.major); } else { NewSlotHasNoFollowers(t, r.major); }
    forall m | 0 <= m < |u.slots| ensures SoundEntry(u, m) { assert SoundEntry(t, m); }
    forall b | 0 <= b < |u.refnr| ensures u.refnr[b] == |Based(u.slots, b)| { BasedStep(t.slots, r.major, e, b); }
  }

  lemma DirectKeepsInvariant(t: Table, r: Record)
    requires Invariant(t) && r.Full? && FullInRange(r) && !IsException(r) && Harmless(t, r)
    ensures Step(t, r).Ok? && Invariant(Step(t, r).value)
  {
    var u := Step(t, r).value;
    var e := u.slots[r.major].value;
    if t.slots[r.major].Some? { OthersBasedOn(t, r.major); } else { NewSlotHasNoFollowers(t, r.major); }
    forall m | 0 <= m < |u.slots| ensures SoundEntry(u, m) { assert SoundEntry(t, m); }
    forall b | 0 <= b < |u.refnr| ensures u.refnr[b] == |Based(u.slots, b)| { BasedStep(t.slots, r.major, e, b); }
  }

  /** A record that is not harmless breaks the invariant. */
  lemma HarmfulBreaksInvariant(t: Table, r: Record)
    requires Invariant(t) && !Harmless(t, r)
    ensures Step(t, r).Ok? && !Invariant(Step(t, r).value)
  {
    var u := Step(t, r).value;
    var e, was := u.slots[r.major].value, t.slots[r.major].value;
    if !was.live {
      BasedStep(t.slots, r.major, e, was.base);
      assert SoundEntry(t, r.major);
      assert u.refnr[was.base] != |Based(u.slots, was.base)|;
    } else if r.Short? && r.major == r.indirect {
      assert !SoundEntry(u, r.major);
    } else {
      OthersBasedOn(t, r.major);
      var j :| 0 <= j < |t.slots| && j != r.major && t.slots[j].Some? && t.slots[j].value.base == r.major;
      assert SoundEntry(t, j) && SoundEntry(t, r.major);
      assert !SoundEntry(u, j);
    }
  }

  /** The table invariant survives a record exactly if the record is harmless. */
  lemma InvariantStepIff(t: Table, r: Record)
    requires Invariant(t)
    ensures Step(t, r).Ok? && (Invariant(Step(t, r).value) <==> Harmless(t, r))
  {
    if Harmless(t, r) { HarmlessKeepsInvariant(t, r); } else { HarmfulBreaksInvariant(t, r); }
  }

  // ----- Files with unique majors

  /** Records that may set a major: exception records only decorate one. */
  predicate Sets(r: Record) {
    r.Short? || (r.Full? && !IsException(r))
  }

  ghost predicate UniqueMajors(rs: seq<Record>) {
    forall i, j :: 0 <= i < j < |rs| && Sets(rs[i]) && Sets(rs[j]) ==> rs[i].major != rs[j].major
  }

  /** Only majors that were read are set. */
  ghost predicate OnlyFrom(t: Table, rs: seq<Record>) {
    forall m :: 0 <= m < |t.slots| && t.slots[m].Some? ==> exists i :: 0 <= i < |rs| && Sets(rs[i]) && rs[i].major == m
  }

  /** Whatever the file holds, if no major is given twice the table that is built from it is sound. */
  lemma {:induction false} UniqueMajorsMakeSoundTable(rs: seq<Record>)
    requires UniqueMajors(rs)
    ensures var u := Load(Empty(), rs); u.Ok? && Invariant(u.value) && OnlyFrom(u.value, rs)
  {
    EmptyIsSound();
    if rs != [] {
      var n := |rs| - 1;
      var p, r := rs[..n], rs[n];
      UniqueMajorsMakeSoundTable(p);
      var t := Load(Empty(), p).value;
      NewMajorIsHarmless(t, p, r);
      HarmlessKeepsInvariant(t, r);
      OnlyFromStep(t, rs);
    }
  }

  lemma NewMajorIsHarmless(t: Table, p: seq<Record>, r: Record)
    requires Invariant(t) && OnlyFrom(t, p) && UniqueMajors(p + [r])
    ensures Harmless(t, r)
  {
    var q := p + [r];
    assert q[|p|] == r;
    forall i | 0 <= i < |p| && Sets(p[i]) && Sets(r) ensures p[i].major != r.major { assert q[i] == p[i]; }
  }

  lemma OnlyFromStep(t: Table, rs: seq<Record>)
    requires Invariant(t) && rs != [] && OnlyFrom(t, rs[..|rs| - 1]) && Step(t, rs[|rs| - 1]).Ok?
    ensures OnlyFrom(Step(t, rs[|rs| - 1]).value, rs)
  {
    var n := |rs| - 1;
    var u := Step(t, rs[n]).value;
    forall m | 0 <= m < |u.slots| && u.slots[m].Some?
      ensures exists i :: 0 <= i < |rs| && Sets(rs[i]) && rs[i].major == m
    {
      if Sets(rs[n]) && rs[n].major == m {
      } else {
        assert u.slots[m] == t.slots[m];
        var i :| 0 <= i < n && Sets(rs[..n][i]) && rs[..n][i].major == m;
        assert rs[i] == rs[..n][i];
      }
    }
  }

  /**
    A file that gives major 8 twice, with major 9 based on it in between: 9 keeps the template that 8
    no longer has.
   */
  lemma RepeatedMajorStripsFollower(a: Record, b: Record, c: Record)
    requires a.Full? && c.Full? && a.major == c.major == 8 && !IsException(a) && !IsException(c) && b == Short(9, 8, 1)
    ensures var u := Load(Empty(), [a, b, c]); u.Ok? && !Invariant(u.value)
  {
    assert [a, b, c][..2] == [a, b] && [a, b][..1] == [a] && [a][..0] == [];
    EmptyIsSound();
    var t := Step(Empty(), a).value;
    NewMajorIsHarmless(Empty(), [], a);
    HarmlessKeepsInvariant(Empty(), a);
    HarmlessKeepsInvariant(t, b);
    var u := Step(t, b).value;
    assert Load(Empty(), []) == Ok(Empty());
    assert Load(Empty(), [a]) == Step(Empty(), a);
    assert Load(Empty(), [a, b]) == Step(t, b);
    assert t.slots[9].None? && u.slots[8].Some? && u.refnr[8] == 1;
    HarmfulBreaksInvariant(u, c);
  }

  // ----- At most one exception a template

  /** A template keeps its configuration for ever, and its exception once it has one. */
  lemma {:induction false} TemplatesAreStable(t: Table, rs: seq<Record>, k: nat)
    requires Proper(t) && k < |t.templates| && Load(t, rs).Ok?
    ensures var u := Load(t, rs).value;
            && k < |u.templates| && u.templates[k].config == t.templates[k].config
            && (t.templates[k].ext.Some? ==> u.templates[k] == t.templates[k])
  {
    if rs != [] { TemplatesAreStable(t, rs[..|rs| - 1], k); }
  }
}
