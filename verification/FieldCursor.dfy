/**
  pfield: the tokenizer of header lines in raw output, which keeps its place between calls and cuts
  fields out of its buffer.
 */
module FieldCursor {
  import opened Wrappers
  import opened Numerals
  import opened Tokenizer

  const HEADER_LINE_LEN := 512
  const INT_LIMIT := 0x8000_0000

  /** snprintf into a buffer of a header line's length. */
  function Cut(s: string): (r: string)
    ensures |r| < HEADER_LINE_LEN
  {
    if |s| < HEADER_LINE_LEN then s else s[..HEADER_LINE_LEN - 1]
  }

  // ----- What a call gives, from the text at the cursor

  /** A header section as it is stored: its first '&' is a separator like any other. */
  function Stored(section: string): string {
    var k := IndexOf(section, '&');
    if k < |section| then section[k := ';'] else section
  }

  /** Character by character: only the first '&' is replaced. */
  lemma StoredIs(section: string, k: nat)
    ensures |Stored(section)| == |section|
    ensures k < |section| ==>
              Stored(section)[k] == if section[k] == '&' && '&' !in section[..k] then ';' else section[k]
  {
    var f := IndexOf(section, '&');
    if k < |section| && k > f { assert section[..k][f] == '&'; }
  }

  /** The section at position `pos` of a header line; none if there are not so many. */
  function Section(hdr: string, pos: nat): Option<string> {
    var t := Tokens(Cut(hdr), '|', 0);
    if pos < |t| then Some(Stored(t[pos])) else None
  }

  /** The name of an item under a stem: "all" for item 0. */
  function ItemName(stem: string, item: nat): string
    requires item < INT_LIMIT
  {
    if item == 0 then "all" else Cut(stem + Ito10(item - 1))
  }

  /** The name of an item other than 0 is the stem and the item's number less one, in decimal. */
  lemma ItemNameIs(stem: string, item: nat, digits: string)
    requires 0 < item < INT_LIMIT && Canonical(digits) && Value10(digits) == item - 1
    ensures |stem + digits| <= 511 ==> ItemName(stem, item) == stem + digits
    ensures ItemName(stem, item) <= stem + digits && (|stem + digits| > 511 ==> |ItemName(stem, item)| == 511)
  {
    ItemNameHasDigits(stem, item, digits);
  }

  lemma ItemNameHasDigits(stem: string, item: nat, digits: string)
    requires 0 < item < INT_LIMIT && Canonical(digits) && Value10(digits) == item - 1
    ensures ItemName(stem, item) == Cut(stem + digits)
  {
    var n: nat := item - 1;
    DigitsOf(n, digits);
    assert item - 1 == n;
  }

  lemma DigitsOf(n: nat, digits: string)
    requires n < INT_LIMIT && Canonical(digits) && Value10(digits) == n
    ensures Ito10(n) == digits
  {
    Ito10RoundTrip(n, digits);
  }

  /** What a call returns and leaves at the cursor; the cursor may be lost behind the last field. */
  datatype Outcome = Outcome(name: string, rest: Option<string>)

  /**
    A call with NULL for this item. A call with a header line is one for item 0 on its section:
    the search for the section counts `pos` down to 0.
   */
  function Call(text: string, item: nat): Outcome
    requires item < INT_LIMIT
  {
    var semi, star := IndexOf(text, ';'), IndexOf(text, '*');
    if semi < |text| then Outcome(text[..semi], Some(text[semi + 1..]))
    else if star < |text| || item != 0 then Outcome(ItemName(text[..star], item), Some(text[..star]))
    else Outcome(text, if text == "" then None else Some(text[1..]))
  }

  // ----- The buffer

  /** The C string at index i is t. */
  ghost predicate TextAt(s: seq<char>, i: nat, t: string) {
    i + |t| < |s| && s[i..i + |t|] == t && s[i + |t|] == '\0' && '\0' !in t
  }

  /** The C string at index i, if a NUL follows. */
  function StringAt(s: seq<char>, i: nat): string
    requires i <= |s|
    decreases |s| - i
  {
    if i == |s| || s[i] == '\0' then "" else [s[i]] + StringAt(s, i + 1)
  }

  lemma {:induction false} StringIsText(s: seq<char>, i: nat)
    requires i < |s| && s[|s| - 1] == '\0'
    ensures TextAt(s, i, StringAt(s, i))
    decreases |s| - i
  {
    if s[i] != '\0' {
      StringIsText(s, i + 1);
      var t := StringAt(s, i + 1);
      assert s[i..i + 1 + |t|] == [s[i]] + s[i + 1..i + 1 + |t|];
    }
  }

  lemma {:induction false} TextIsString(s: seq<char>, i: nat, t: string)
    requires TextAt(s, i, t)
    ensures StringAt(s, i) == t
    decreases |t|
  {
    if t != "" {
      assert s[i + 1..i + |t|] == s[i..i + |t|][1..];
      TextIsString(s, i + 1, t[1..]);
    }
  }

  lemma SectionFits(hdr: string, pos: nat)
    requires '\0' !in hdr && Section(hdr, pos).Some?
    ensures |Section(hdr, pos).value| < HEADER_LINE_LEN && '\0' !in Section(hdr, pos).value
  {
    TokensAreParts(Cut(hdr), '|', 0);
    var t := Tokens(Cut(hdr), '|', 0)[pos];
    assert forall c :: c in t ==> c in Cut(hdr);
    assert '\0' !in t;
    assert forall k :: 0 <= k < |Stored(t)| ==> Stored(t)[k] == ';' || Stored(t)[k] == t[k];
  }

  class Cursor {
    const field: array<char>
    var idx: nat
    /** The text at the cursor, if it is not lost. */
    ghost var text: Option<string>

    ghost predicate Shape()
    {
      field.Length == HEADER_LINE_LEN
    }

    /** The last character of the buffer is always NUL, so that reading ends wherever the cursor stands in it. */
    ghost predicate Valid()
      reads this, field
    {
      && Shape() && field[HEADER_LINE_LEN - 1] == '\0' && idx <= HEADER_LINE_LEN
      && (text.Some? ==> TextAt(field[..], idx, text.value))
    }

    constructor ()
      ensures Valid() && fresh(field) && text == Some("") && idx == 0
    {
      field := new char[HEADER_LINE_LEN](_ => '\0');
      idx := 0;
      text := Some("");
    }

    /** strcspn at the cursor. */
    method Find(c: char) returns (j: nat)
      requires Valid() && text.Some? && c != '\0'
      ensures j == IndexOf(text.value, c)
    {
      j := 0;
      while field[idx + j] != c && field[idx + j] != '\0'
        invariant j <= |text.value| && idx + j < field.Length
        invariant field[idx + j] == (if j < |text.value| then text.value[j] else '\0')
        invariant forall k :: 0 <= k < j ==> text.value[k] != c
        decreases |text.value| - j
      {
        j := j + 1;
      }
    }

    /** Copies a string to the start of the buffer. */
    method Store(t: string)
      requires Valid() && |t| < HEADER_LINE_LEN && '\0' !in t
      modifies this, field
      ensures Valid() && idx == 0 && text == Some(t)
    {
      for k := 0 to |t|
        invariant field[..k] == t[..k] && field[HEADER_LINE_LEN - 1] == '\0'
      {
        field[k] := t[k];
      }
      assert t[..|t|] == t;
      field[|t|] := '\0';
      idx := 0;
      text := Some(t);
    }

    /** Ends the text at the cursor after j characters. */
    method End(j: nat)
      requires Valid() && text.Some? && j <= |text.value|
      modifies this`text, field
      ensures Valid() && text == Some(old(text.value)[..j])
      ensures j < |old(text.value)| ==> TextAt(field[..], idx + j + 1, old(text.value)[j + 1..])
    {
      ghost var was := field[..];
      field[idx + j] := '\0';
      assert field[..] == was[idx + j := '\0'];
      text := Some(text.value[..j]);
    }

    /** The first part of pfield: finds the section of a new header line. */
    method Load(hdr: string, pos: nat) returns (found: bool, left: nat)
      requires Valid() && '\0' !in hdr
      modifies this, field
      ensures Valid() && found == Section(hdr, pos).Some?
      ensures text == Some(if found then Section(hdr, pos).value else "")
      ensures found ==> left == 0
    {
      var hl;
      hl, left := Nth(Cut(hdr), '|', pos);
      if hl.None? {
        Store("");
        return false, left;
      }
      SectionFits(hdr, pos);
      var t := hl.value;
      var j := IndexOf(t, '&');
      if j < |t| {
        t := t[j := ';'];
      }
      Store(t);
      found := true;
    }

    /**
      pfield. Behind an empty last field the cursor stands at what is left in the buffer from
      before, and a call with NULL goes on there, up to the end of the buffer.
     */
    method Pfield(hdr: Option<string>, pos: nat) returns (name: string)
      requires Valid() && pos < INT_LIMIT && (hdr.Some? ==> '\0' !in hdr.value) && (hdr.None? ==> idx < HEADER_LINE_LEN)
      modifies this, field
      ensures Valid()
      ensures hdr.Some? && Section(hdr.value, pos).None? ==> name == "" && text == Some("")
      ensures hdr.Some? && Section(hdr.value, pos).Some? ==>
                Outcome(name, text) == Call(Section(hdr.value, pos).value, 0)
      ensures hdr.None? ==> Outcome(name, text) == Call(old(StringAt(field[..], idx)), pos)
      ensures text.Some? ==> idx < HEADER_LINE_LEN && text.value == StringAt(field[..], idx)
      ensures text.None? && hdr.None? ==> idx == old(idx) + 1
    {
      var item := pos;
      if hdr.Some? {
        var found;
        found, item := Load(hdr.value, pos);
        if !found {
          TextIsString(field[..], idx, "");
          return "";
        }
      }
      if hdr.None? {
        StringIsText(field[..], idx);
        text := Some(StringAt(field[..], idx));
      }
      name := NextField(hdr.Some?, item);
      if text.Some? { TextIsString(field[..], idx, text.value); }
    }

    /** The second part of pfield, on the text at the cursor. */
    method NextField(first: bool, item: nat) returns (name: string)
      requires Valid() && text.Some? && item < INT_LIMIT && (first ==> item == 0)
      modifies this, field
      ensures Valid() && Outcome(name, text) == Call(old(text.value), item) && (text.None? ==> idx == old(idx) + 1)
    {
      var semi := Find(';');
      var star := Find('*');
      if field[idx + semi] == ';' {
        name := TakeField(semi, item);
      } else if field[idx + star] == '*' || (!first && item != 0) {
        name := TakeStem(star, item);
      } else {
        name := TakeLast(semi);
      }
    }

    /** A field with a '*': the star is erased, and the cursor does not move. */
    method TakeStem(j: nat, item: nat) returns (name: string)
      requires Valid() && text.Some? && j <= |text.value| && item < INT_LIMIT
      modifies this`text, field
      ensures Valid() && text == Some(old(text.value)[..j]) && name == ItemName(old(text.value)[..j], item)
    {
      ghost var stem := text.value[..j];
      End(j);
      name := field[idx..idx + j];
      assert name == stem;
      name := if item == 0 then "all" else Cut(name + Ito10(item - 1));
    }

    method TakeField(j: nat, ghost item: nat) returns (name: string)
      requires Valid() && text.Some? && j == IndexOf(text.value, ';') < |text.value| && item < INT_LIMIT
      modifies this, field
      ensures Valid() && Outcome(name, text) == Call(old(text.value), item)
    {
      ghost var rest := text.value[j + 1..];
      End(j);
      name := field[idx..idx + j];
      idx := idx + j + 1;
      text := Some(rest);
    }

    /** The last field has no separator behind it: the cursor moves by one character only. */
    method TakeLast(len: nat) returns (name: string)
      requires Valid() && text.Some? && len == |text.value| == IndexOf(text.value, ';') == IndexOf(text.value, '*')
      modifies this
      ensures Valid() && Outcome(name, text) == Call(old(text.value), 0) && idx == old(idx) + 1
    {
      name := field[idx..idx + len];
      text := if name == "" then None else Some(name[1..]);
      idx := idx + 1;
    }
  }

  // ----- Several calls

  /** The names that calls return one after the other, each with its item number, until the cursor is lost. */
  function Run(text: string, items: seq<nat>): (r: (seq<string>, Option<string>))
    requires forall k :: 0 <= k < |items| ==> items[k] < INT_LIMIT
    decreases |items|
  {
    if items == [] then ([], Some(text))
    else
      var o := Call(text, items[0]);
      match o.rest
      case None => ([o.name], None)
      case Some(rest) => var r := Run(rest, items[1..]); ([o.name] + r.0, r.1)
  }

  function Fields(t: string): (f: seq<string>)
    ensures f != []
    decreases |t|
  {
    var k := IndexOf(t, ';');
    if k == |t| then [t] else [t[..k]] + Fields(t[k + 1..])
  }

  function WithSemicolons(f: seq<string>): string {
    if f == [] then "" else if |f| == 1 then f[0] else f[0] + ";" + WithSemicolons(f[1..])
  }

  /** The fields are all of the section, in order. */
  lemma {:induction false} FieldsAreTheText(t: string)
    ensures WithSemicolons(Fields(t)) == t
    ensures forall k :: 0 <= k < |Fields(t)| ==> ';' !in Fields(t)[k]
    decreases |t|
  {
    var k := IndexOf(t, ';');
    if k < |t| {
      FieldsAreTheText(t[k + 1..]);
      assert ([t[..k]] + Fields(t[k + 1..]))[1..] == Fields(t[k + 1..]);
      assert t == t[..k] + ";" + t[k + 1..];
    }
  }

  predicate Zeros(items: seq<nat>) {
    forall k :: 0 <= k < |items| ==> items[k] == 0
  }

  lemma RunStep(t: string, items: seq<nat>)
    requires items != [] && forall k :: 0 <= k < |items| ==> items[k] < INT_LIMIT
    ensures var o := Call(t, items[0]);
            Run(t, items) == if o.rest.None? then ([o.name], None)
                                    else ([o.name] + Run(o.rest.value, items[1..]).0, Run(o.rest.value, items[1..]).1)
  {
  }

  /**
    Calls with item number 0 return the fields one after the other, as long as there are fields
    and those that are asked for hold no '*'; they leave the cursor at the first field not yet returned.
   */
  lemma {:induction false} FieldsInOrder(t: string, items: seq<nat>)
    requires |items| <= |Fields(t)| && (forall k :: 0 <= k < |items| ==> items[k] < INT_LIMIT)
    requires Zeros(items)
    requires forall k :: 0 <= k < |items| ==> '*' !in Fields(t)[k]
    ensures Run(t, items).0 == Fields(t)[..|items|]
    ensures |items| < |Fields(t)| ==> Run(t, items).1.Some? && Fields(Run(t, items).1.value) == Fields(t)[|items|..]
    decreases |items|
  {
    if items != [] {
      if IndexOf(t, ';') < |t| {
        var rest := t[IndexOf(t, ';') + 1..];
        RestOfFields(t);
        FieldsInOrder(rest, items[1..]);
      } else {
        assert Fields(t) == [t] && Fields(t)[0] == t;
        OnlyField(t, items);
      }
    }
  }

  lemma RestOfFields(t: string)
    requires IndexOf(t, ';') < |t|
    ensures var rest := Fields(t[IndexOf(t, ';') + 1..]);
            |Fields(t)| == |rest| + 1 && forall k :: 0 <= k < |rest| ==> rest[k] == Fields(t)[k + 1]
  {
  }

  lemma OnlyField(t: string, items: seq<nat>)
    requires IndexOf(t, ';') == |t| && |items| == 1 && items[0] == 0 && '*' !in t
    ensures Fields(t) == [t] && Run(t, items).0 == [t]
  {
    assert items[1..] == [];
  }

  lemma {:induction false} RunNeverGrows(t: string, items: seq<nat>)
    requires forall k :: 0 <= k < |items| ==> items[k] < INT_LIMIT
    ensures Run(t, items).1.Some? ==> |Run(t, items).1.value| <= |t|
    decreases |items|
  {
    if items != [] {
      var o := Call(t, items[0]);
      if o.rest.Some? { RunNeverGrows(o.rest.value, items[1..]); }
    }
  }

  function ItemNames(stem: string, items: seq<nat>): seq<string>
    requires forall k :: 0 <= k < |items| ==> items[k] < INT_LIMIT
  {
    seq(|items|, k requires 0 <= k < |items| => ItemName(stem, items[k]))
  }

  predicate Plain(stem: string) {
    stem != "" && ';' !in stem && '*' !in stem
  }

  /** Behind an erased star: the cursor stays exactly if no call asks for item 0, and the names are then the items'. */
  lemma {:induction false} ItemsIff(stem: string, items: seq<nat>)
    requires Plain(stem) && forall k :: 0 <= k < |items| ==> items[k] < INT_LIMIT
    ensures Run(stem, items).1 == Some(stem) <==> (forall k :: 0 <= k < |items| ==> items[k] != 0)
    ensures Run(stem, items).1 == Some(stem) ==> Run(stem, items).0 == ItemNames(stem, items)
    decreases |items|
  {
    if items != [] {
      var c, rest := items[0], items[1..];
      assert IndexOf(stem, ';') == |stem| == IndexOf(stem, '*') && stem[..|stem|] == stem;
      if c == 0 {
        assert Call(stem, c).rest == Some(stem[1..]);
        RunNeverGrows(stem[1..], rest);
      } else {
        assert Call(stem, c) == Outcome(ItemName(stem, c), Some(stem));
        ItemsIff(stem, rest);
        assert ItemNames(stem, items) == [ItemName(stem, c)] + ItemNames(stem, rest);
      }
    }
  }

  lemma StarredCall(stem: string, item: nat)
    requires Plain(stem) && item < INT_LIMIT
    ensures Call(stem + "*", item) == Outcome(ItemName(stem, item), Some(stem))
  {
    var t := stem + "*";
    assert t[|stem|] == '*' && forall k :: 0 <= k < |stem| ==> t[k] == stem[k];
    assert IndexOf(t, '*') == |stem| && IndexOf(t, ';') == |t| && t[..|stem|] == stem;
  }

  /**
    On a starred field, calls return "all" for item 0 and the stem with the item's number less
    one for the others, and the cursor stays at the stem, exactly if item 0 is asked for by the
    first call only, if at all.
   */
  lemma StarredFieldIff(stem: string, items: seq<nat>)
    requires Plain(stem) && items != [] && forall k :: 0 <= k < |items| ==> items[k] < INT_LIMIT
    ensures Run(stem + "*", items).1 == Some(stem) <==> (forall k :: 1 <= k < |items| ==> items[k] != 0)
    ensures Run(stem + "*", items).1 == Some(stem) ==> Run(stem + "*", items).0 == ItemNames(stem, items)
  {
    var c, rest := items[0], items[1..];
    StarredCall(stem, c);
    ItemsIff(stem, rest);
    assert ItemNames(stem, items) == [ItemName(stem, c)] + ItemNames(stem, rest);
    assert (forall k :: 1 <= k < |items| ==> items[k] != 0) <==> (forall k :: 0 <= k < |rest| ==> rest[k] != 0) by {
      assert forall k :: 1 <= k < |items| ==> items[k] == rest[k - 1];
    }
  }

  lemma {:induction false} RunSplit(t: string, a: seq<nat>, b: seq<nat>)
    requires (forall k :: 0 <= k < |a| ==> a[k] < INT_LIMIT) && (forall k :: 0 <= k < |b| ==> b[k] < INT_LIMIT)
    requires Run(t, a).1.Some? && a != []
    ensures var r := Run(t, a); var q := Run(r.1.value, b);
            Run(t, a + b).0 == r.0 + q.0 && Run(t, a + b).1 == q.1
    decreases |a|
  {
    var o := Call(t, a[0]);
    assert (a + b)[1..] == a[1..] + b;
    RunStep(t, a);
    RunStep(t, a + b);
    if |a| > 1 {
      RunSplit(o.rest.value, a[1..], b);
    } else {
      assert a[1..] == [] && [] + b == b;
    }
  }

  /**
    A header call whose section is one starred field, at whatever position it stands: "all", and
    then the items asked for with NULL, exactly if none of them is item 0.
   */
  lemma LoneStarredSectionIff(hdr: string, pos: nat, stem: string, items: seq<nat>)
    requires Plain(stem) && Section(hdr, pos) == Some(stem + "*")
    requires forall k :: 0 <= k < |items| ==> items[k] < INT_LIMIT
    ensures Run(Section(hdr, pos).value, [0] + items).1 == Some(stem) <==>
              forall k :: 0 <= k < |items| ==> items[k] != 0
    ensures (forall k :: 0 <= k < |items| ==> items[k] != 0) ==>
              Run(Section(hdr, pos).value, [0] + items).0 == ["all"] + ItemNames(stem, items)
  {
    StarredFieldIff(stem, [0] + items);
    AllFirst(stem, items);
  }

  lemma AllFirst(stem: string, items: seq<nat>)
    requires forall k :: 0 <= k < |items| ==> items[k] < INT_LIMIT
    ensures ItemNames(stem, [0] + items) == ["all"] + ItemNames(stem, items)
    ensures (forall k :: 1 <= k < |[0] + items| ==> ([0] + items)[k] != 0) <==>
              (forall k :: 0 <= k < |items| ==> items[k] != 0)
  {
    var all := [0] + items;
    assert forall k :: 0 <= k < |items| ==> items[k] == all[k + 1];
    assert forall k :: 1 <= k < |all| ==> all[k] == items[k - 1];
  }

  /** Item 0 asked for twice: the second answer is the bare stem, and the cursor has moved into it. */
  lemma SecondAllIsTheStem(stem: string)
    requires Plain(stem)
    ensures Run(stem + "*", [0, 0]) == (["all", stem], Some(stem[1..]))
  {
    StarredCall(stem, 0);
    assert IndexOf(stem, ';') == |stem| == IndexOf(stem, '*') && Call(stem, 0) == Outcome(stem, Some(stem[1..]));
    assert [0, 0][1..] == [0] && [0][1..] == [];
    RunStep(stem + "*", [0, 0]);
    RunStep(stem, [0]);
    assert [stem] + [] == [stem] && ["all"] + [stem] == ["all", stem];
  }

  /** A header such as "INTR;CPU*": its plain fields in order, then the items of the last one. */
  lemma FieldsThenItems(t: string, stem: string, items: seq<nat>)
    requires Plain(stem) && items != [] && forall k :: 0 <= k < |items| ==> items[k] < INT_LIMIT
    requires var f := Fields(t); |f| >= 2 && f[|f| - 1] == stem + "*" && forall k :: 0 <= k < |f| - 1 ==> '*' !in f[k]
    requires forall k :: 1 <= k < |items| ==> items[k] != 0
    ensures var n := |Fields(t)| - 1; Run(t, Noughts(n) + items).0 == Fields(t)[..n] + ItemNames(stem, items)
  {
    var n := |Fields(t)| - 1;
    FieldsInOrder(t, Noughts(n));
    RunSplit(t, Noughts(n), items);
    StarredFieldIff(stem, items);
  }

  function Noughts(n: nat): seq<nat> {
    seq(n, _ => 0)
  }
}
