/** The device namer of ioconf.c: its table of shared templates, filled record by record, and ioc_name. */
module DeviceNaming {
  import opened Wrappers
  import opened Arithmetic
  import opened Numerals
  import opened DeviceTable
  import opened DeviceName

  /** A blk_config. Entries of several majors may point to the same one. */
  class BlkConfig {
    const config: Config
    var ext: Option<Exception>
    /** Its place among the templates made so far. */
    ghost const index: nat

    constructor (config: Config, ghost index: nat)
      ensures this.config == config && this.index == index && ext == None
    {
      this.config, this.index := config, index;
      ext := None;
    }
  }

  /** An ioc_entry. */
  datatype IocEntry = IocEntry(live: bool, ctrlno: nat, basemajor: nat, blkp: BlkConfig?)

  /** An entry, with the template it points to given by its place. */
  ghost function Meaning(e: Option<IocEntry>): Option<Entry> {
    if e.None? then None
    else
      var p := e.value.blkp;
      Some(Entry(e.value.live, e.value.ctrlno, e.value.basemajor, if p == null then None else Some(p.index)))
  }

  ghost function Meanings(s: seq<Option<IocEntry>>): seq<Option<Entry>> {
    seq(|s|, i requires 0 <= i < |s| => Meaning(s[i]))
  }

  class DeviceNamer {
    const ioconf: array<Option<IocEntry>>
    const refnr: array<nat>
    /** The templates made so far, and what they hold. */
    ghost var pool: seq<BlkConfig>
    ghost var templates: seq<Template>

    ghost predicate Valid()
      reads this, ioconf, refnr, pool
    {
      && ioconf.Length == MAX_BLKDEV + 1 && refnr.Length == MAX_BLKDEV + 1
      && |pool| == |templates|
      && (forall i :: 0 <= i < |pool| ==> pool[i].index == i && templates[i] == Template(pool[i].config, pool[i].ext))
      && (forall m :: 0 <= m < ioconf.Length && ioconf[m].Some? && ioconf[m].value.blkp != null ==>
            ioconf[m].value.blkp in pool)
    }

    ghost function Contents(): Table
      reads this, ioconf, refnr
    {
      Table(Meanings(ioconf[..]), refnr[..], templates)
    }

    constructor ()
      ensures Valid() && Contents() == Empty() && fresh(ioconf) && fresh(refnr)
    {
      ioconf := new Option<IocEntry>[MAX_BLKDEV + 1](_ => None);
      refnr := new nat[MAX_BLKDEV + 1](_ => 0);
      pool, templates := [], [];
      new;
      assert Contents() == Empty();
    }

    /**
      An indirect record: the entry points to its referent's template. Its own slot is set before the
      template is looked up.
     */
    method AddShort(major: nat, indirect: nat, ctrlno: nat)
      requires Valid() && Proper(Contents())
      modifies ioconf, refnr
      ensures Valid() && Step(old(Contents()), Short(major, indirect, ctrlno)) == Ok(Contents())
    {
      if indirect == 0 || indirect > MAX_BLKDEV || major > MAX_BLKDEV || ioconf[indirect] == None {
        return;
      }
      refnr[indirect] := refnr[indirect] + 1;
      ioconf[major] := Some(IocEntry(false, ctrlno, indirect, null));
      ioconf[major] := Some(IocEntry(false, ctrlno, indirect, ioconf[indirect].value.blkp));
      assert Meanings(ioconf[..]) == Step(old(Contents()), Short(major, indirect, ctrlno)).value.slots;
      assert refnr[..] == Step(old(Contents()), Short(major, indirect, ctrlno)).value.refnr;
    }

    /** An exception record: it decorates the template of its major, once. */
    method AddException(r: Record) returns (ok: bool)
      requires Valid() && Proper(Contents()) && r.Full? && FullInRange(r) && IsException(r)
      modifies this, pool
      ensures Valid() && pool == old(pool)
      ensures Step(old(Contents()), r) == if ok then Ok(Contents()) else Fail
    {
      if ioconf[r.major] == None {
        return true;
      }
      var xblkp := ioconf[r.major].value.blkp;
      if xblkp == null {
        return false;
      }
      if xblkp.ext.None? {
        xblkp.ext := Some(Exception(r.ctrlno, r.name));
        templates := templates[xblkp.index := templates[xblkp.index].(ext := xblkp.ext)];
        assert forall i :: 0 <= i < |pool| && i != xblkp.index ==> pool[i] != xblkp;
      }
      return true;
    }

    /** A direct record: a new template, and a live entry that points to it. */
    method AddDirect(r: Record)
      requires Valid() && Proper(Contents()) && r.Full? && FullInRange(r) && !IsException(r)
      modifies this, ioconf
      ensures Valid() && (forall k :: 0 <= k < |pool| ==> pool[k] in old(pool) || fresh(pool[k]))
      ensures Step(old(Contents()), r) == Ok(Contents())
    {
      ghost var slots := Contents().slots;
      var implicit := r.cfmt != "" && r.cfmt[0] == '*';
      var prefix := if implicit then r.name else r.name + r.cfmt;
      var partPrefix := if r.pfmt != "" && r.pfmt[0] == '*' then "" else r.pfmt;
      var blkp := new BlkConfig(Config(prefix, !implicit, r.diskPrefix, r.unit, partPrefix, r.dcount, r.pcount),
                                |pool|);
      pool := pool + [blkp];
      templates := templates + [Template(blkp.config, None)];
      ioconf[r.major] := Some(IocEntry(true, r.ctrlno, r.major, blkp));
      assert Meanings(ioconf[..]) == slots[r.major := Some(Entry(true, r.ctrlno, r.major, Some(|old(pool)|)))];
    }

    method AddRecord(r: Record) returns (ok: bool)
      requires Valid() && Proper(Contents())
      modifies this, ioconf, refnr, pool
      ensures Valid() && (forall k :: 0 <= k < |pool| ==> pool[k] in old(pool) || fresh(pool[k]))
      ensures Step(old(Contents()), r) == if ok then Ok(Contents()) else Fail
    {
      ok := true;
      match r
      case Other =>
      case Short(major, indirect, ctrlno) =>
        AddShort(major, indirect, ctrlno);
      case Full(major, _, _, _, _, _, _, _, _) =>
        if major != 0 && major < MAX_BLKDEV {
          if r.cfmt != "" && r.cfmt[0] == 'x' {
            ok := AddException(r);
          } else {
            AddDirect(r);
          }
        }
    }

    /** ioc_init, on the records of the file. It stops where the program would use a null template pointer. */
    method IocInit(rs: seq<Record>) returns (ok: bool)
      requires Valid() && Contents() == Empty()
      modifies this, ioconf, refnr, pool
      ensures Valid() && Load(Empty(), rs) == if ok then Ok(Contents()) else Fail
      ensures UniqueMajors(rs) ==> ok && Invariant(Contents())
    {
      ok := true;
      var i := 0;
      while i < |rs| && ok
        invariant Valid() && i <= |rs| && (forall k :: 0 <= k < |pool| ==> pool[k] in old(pool) || fresh(pool[k]))
        invariant ok ==> Load(Empty(), rs[..i]) == Ok(Contents())
        invariant !ok ==> Load(Empty(), rs[..i]) == Fail
      {
        assert rs[..i + 1][..i] == rs[..i];
        ok := AddRecord(rs[i]);
        i := i + 1;
      }
      if ok { assert rs[..i] == rs; } else { FailureStays(rs, i); }
      if UniqueMajors(rs) { UniqueMajorsMakeSoundTable(rs); }
    }

    /** ioc_name, with base and offset computed step by step. */
    method IocName(major: nat, minor: nat) returns (name: Option<string>)
      requires Valid() && NoNull(Contents())
      ensures name == NameOf(Contents(), major, minor)
    {
      if major > MAX_BLKDEV || minor > MAX_MINOR {
        return None;
      }
      assert Contents().slots[major] == Meaning(ioconf[major]);
      if ioconf[major] == None {
        return Some("nodev");
      }
      var p := ioconf[major].value;
      var blkp := p.blkp;
      var c := blkp.config;
      assert blkp in pool;
      if minor % 256 >= U32(c.dcount * c.pcount) {
        return Some("nodev");
      }
      if blkp.ext.Some? && blkp.ext.value.minor == minor {
        return Some(blkp.ext.value.name);
      }
      RangeNeedsPartitions(c, minor);
      var text := MakeName(c, p.ctrlno, refnr[p.basemajor], minor);
      return Some(text);
    }

    method MakeName(c: Config, ctrlno: nat, refs: nat, minor: nat) returns (text: string)
      requires c.pcount >= 1
      ensures text == NameText(c, ctrlno, refs, minor)
    {
      var base := U32(ctrlno * c.dcount);
      if minor >= 256 {
        base := U32(base + c.dcount * (refs + 1) * (minor / 256));
      }
      var offset := minor % 256 / c.pcount;
      if !c.explicit {
        offset := offset + base;
      }
      assert U32(offset) == DiskNumber(c, ctrlno, refs, minor / 256, DiskIndex(c, minor));
      text := c.prefix + if c.explicit then Printed(ctrlno) else "";
      var numeral := WriteNumber(c.unit, U32(offset));
      var part := if minor % c.pcount != 0 then c.partPrefix + Printed(minor % c.pcount) else "";
      text := text + c.diskPrefix + (numeral + part);
    }

    /** The call through cconv. */
    method WriteNumber(unit: Unit, n: nat) returns (s: string)
      requires n < TWO_32
      ensures s == if unit.Letters? then Ito26(n) else Ito10(n)
    {
      if unit.Letters? {
        s := IocConv(26, true, LETTERS, n);
      } else {
        s := IocConv(10, false, DECIMAL, n);
      }
    }
  }

  lemma {:induction false} FailureStays(rs: seq<Record>, i: nat)
    requires i <= |rs| && Load(Empty(), rs[..i]).Fail?
    ensures Load(Empty(), rs).Fail?
    decreases |rs|
  {
    if i < |rs| {
      assert rs[..|rs| - 1][..i] == rs[..i];
      FailureStays(rs[..|rs| - 1], i);
    } else {
      assert rs[..i] == rs;
    }
  }
}
