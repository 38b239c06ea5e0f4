/** Lists of values and ranges on the command line, such as "0,2-5,10-", and the bitmap they select. */
module ValueSets {
  import opened Wrappers
  import opened Arithmetic
  import opened Bitmaps
  import opened Numerals
  import opened Tokenizer

  // ----- Numbers

  const LONG_MAX := 0x7FFF_FFFF_FFFF_FFFF
  const INT_MAX := 0x7FFF_FFFF

  /** atoi on a string of digits: a long that stops at its maximum, and its low 32 bits as an int. */
  function Atoi(s: string): int
    requires IsDigits(s)
  {
    var n := if Value10(s) > LONG_MAX then LONG_MAX else Value10(s);
    var low := U32(n);
    if low > INT_MAX then low - TWO_32 else low
  }

  /** parse_valstr: the value, -1 for the empty string. */
  function ParseValstr(s: string, maxVal: int): Result<int> {
    if s == "" then Ok(-1)
    else if !IsDigits(s) then Fail
    else if Atoi(s) < 0 || Atoi(s) >= maxVal then Fail
    else Ok(Atoi(s))
  }

  /**
    Numbers that fit an int are read as they are, and refused exactly if they are too large; a number
    that does not fit must not look like a value.
   */
  lemma ParseValstrIff(s: string, maxVal: int)
    requires s != "" && IsDigits(s) && maxVal <= INT_MAX
    ensures (ParseValstr(s, maxVal) == if Value10(s) < maxVal then Ok(Value10(s)) else Fail)
            <==> (Value10(s) <= INT_MAX || !(0 <= Atoi(s) < maxVal))
  {
  }

  lemma NextDigit(s: string, n: nat)
    requires n < |s| && IsDigits(s)
    ensures IsDigits(s[..n + 1]) && Value10(s[..n + 1]) == 10 * Value10(s[..n]) + (s[n] as int - '0' as int)
  {
    assert s[..n + 1][..n] == s[..n];
  }

  lemma ValueOfTen(s: string)
    requires |s| == 10 && IsDigits(s)
    requires s[0] == '4' && s[1] == '2' && s[2] == '9' && s[3] == '4' && s[4] == '9'
    requires s[5] == '6' && s[6] == '7' && s[7] == '2' && s[8] == '9' && s[9] == '7'
    ensures Value10(s) == TWO_32 + 1
  {
    assert s[..0] == "" && Value10(s[..0]) == 0 && s[..10] == s;
    NextDigit(s, 0);
    NextDigit(s, 1);
    NextDigit(s, 2);
    NextDigit(s, 3);
    NextDigit(s, 4);
    assert Value10(s[..5]) == 42949;
    NextDigit(s, 5);
    NextDigit(s, 6);
    NextDigit(s, 7);
    NextDigit(s, 8);
    NextDigit(s, 9);
  }

  /** 2^32 + 1 passes for CPU 1 on a machine with 8. */
  lemma LargeNumberPassesForSmall()
    ensures exists s :: IsDigits(s) && Value10(s) == TWO_32 + 1 && ParseValstr(s, 8) == Ok(1)
  {
    var s := "4294967297";
    ValueOfTen(s);
  }

  // ----- Ranges

  /** The values from `lo` to `hi`. */
  datatype Span = Span(lo: int, hi: int)

  const RANGE_SIZE := 16

  /** parse_range_values on a token; the copy that is split at '-' holds 15 characters. */
  function ParseRange(t: string, maxVal: int): Result<Span> {
    if t == "" then Fail
    else
      var range := if |t| < RANGE_SIZE then t else t[..RANGE_SIZE - 1];
      var k := IndexOf(range, '-');
      if k < |range| then
        match ParseValstr(range[..k], maxVal)
        case Fail => Fail
        case Ok(lo) =>
          if lo < 0 then Fail
          else
            match ParseValstr(range[k + 1..], maxVal)
            case Fail => Fail
            case Ok(v) =>
              var hi := if v < 0 then maxVal - 1 else v;
              if hi < lo then Fail else Ok(Span(lo, hi))
      else
        match ParseValstr(t, maxVal)
        case Fail => Fail
        case Ok(v) => if v < 0 then Fail else Ok(Span(v, v))
  }

  // ----- What a token means

  predicate Number(s: string, maxVal: int, v: int) {
    s != "" && IsDigits(s) && Value10(s) == v && v < maxVal
  }

  /** "n" for one value, "n-m" for the values from n to m, "n-" for those from n on. */
  ghost predicate Denotes(t: string, maxVal: int, r: Span) {
    || (Number(t, maxVal, r.lo) && r.hi == r.lo)
    || exists k :: 0 <= k < |t| && DenotesRange(t, k, maxVal, r)
  }

  predicate DenotesRange(t: string, k: nat, maxVal: int, r: Span)
    requires k < |t|
  {
    && t[k] == '-' && Number(t[..k], maxVal, r.lo) && r.lo <= r.hi
    && (if t[k + 1..] == "" then r.hi == maxVal - 1 else Number(t[k + 1..], maxVal, r.hi))
  }

  /** The numbers around the first '-', or the whole token, fit an int if they are numbers at all. */
  predicate FitsInt(t: string) {
    var k := IndexOf(t, '-');
    && (IsDigits(t[..k]) ==> Value10(t[..k]) <= INT_MAX)
    && (k < |t| && IsDigits(t[k + 1..]) ==> Value10(t[k + 1..]) <= INT_MAX)
  }

  /** The copy that is split holds the whole token, or the token is not split. */
  predicate Uncut(t: string) {
    |t| < RANGE_SIZE || '-' !in t
  }

  /**
    If its numbers fit, parse_range_values accepts an uncut token exactly if it means something, and
    as what it means.
   */
  lemma ParseRangeIff(t: string, maxVal: int, r: Span)
    requires Uncut(t) && FitsInt(t) && 0 <= maxVal <= INT_MAX
    ensures ParseRange(t, maxVal) == Ok(r) <==> Denotes(t, maxVal, r)
  {
    var k := IndexOf(t, '-');
    if k == |t| {
      assert t[..k] == t;
    } else {
      OneDash(t, k, maxVal, r);
    }
  }

  /** Only the first '-' can split a token that means something. */
  lemma OneDash(t: string, k: nat, maxVal: int, r: Span)
    requires k < |t| && k == IndexOf(t, '-')
    ensures Denotes(t, maxVal, r) <==> DenotesRange(t, k, maxVal, r)
  {
    assert t[..|t|] == t && !Number(t, maxVal, r.lo);
    forall j | 0 <= j < |t| && j != k ensures !DenotesRange(t, j, maxVal, r) { }
  }

  /** The upper end that the part behind a dash stands for, above `lo`. */
  function Upper(s: string, lo: int, maxVal: int): Option<int> {
    if s == "" then Some(maxVal - 1)
    else if IsDigits(s) && lo <= Value10(s) < maxVal then Some(Value10(s))
    else None
  }

  lemma DenotesUpper(t: string, maxVal: int, r: Span)
    requires IndexOf(t, '-') < |t|
    ensures var k := IndexOf(t, '-');
            Denotes(t, maxVal, r) <==> Number(t[..k], maxVal, r.lo) && Upper(t[k + 1..], r.lo, maxVal) == Some(r.hi)
  {
    OneDash(t, IndexOf(t, '-'), maxVal, r);
  }

  /**
    What a caller can check of a token of 16 characters or more: the part in front of its first
    dash is no value; or the part behind it stands for the same end with and without what is
    cut off; or the dash itself is cut off, and the part behind it stands for nothing.
   */
  predicate HarmlessCut(t: string, maxVal: int)
    requires |t| >= RANGE_SIZE && '-' in t
  {
    var k := IndexOf(t, '-');
    var front, behind := t[..k], t[k + 1..];
    var lo := if IsDigits(front) then Value10(front) else 0;
    front != "" && IsDigits(front) && lo < maxVal ==>
      if k < RANGE_SIZE - 1 then Upper(t[k + 1..RANGE_SIZE - 1], lo, maxVal) == Upper(behind, lo, maxVal)
      else Upper(behind, lo, maxVal) == None
  }

  lemma DashInCut(t: string)
    requires |t| >= RANGE_SIZE && '-' in t
    ensures '-' in t[..RANGE_SIZE - 1] <==> IndexOf(t, '-') < RANGE_SIZE - 1
    ensures IndexOf(t, '-') < RANGE_SIZE - 1 ==> IndexOf(t[..RANGE_SIZE - 1], '-') == IndexOf(t, '-')
  {
    var cut, k := t[..RANGE_SIZE - 1], IndexOf(t, '-');
    assert k < RANGE_SIZE - 1 ==> cut[k] == '-';
    assert forall i :: 0 <= i < |cut| ==> cut[i] == t[i];
  }

  /** What a long token is read as: the cut token means the same in front of the dash, and its own part behind it. */
  lemma LongTokenReads(t: string, maxVal: int, r: Span)
    requires |t| >= RANGE_SIZE && '-' in t && 0 <= maxVal <= INT_MAX
    requires IndexOf(t, '-') < RANGE_SIZE - 1 ==> FitsInt(t[..RANGE_SIZE - 1])
    ensures var k := IndexOf(t, '-');
            ParseRange(t, maxVal) == Ok(r) <==>
              && k < RANGE_SIZE - 1 && Number(t[..k], maxVal, r.lo)
              && Upper(t[k + 1..RANGE_SIZE - 1], r.lo, maxVal) == Some(r.hi)
  {
    var cut, k := t[..RANGE_SIZE - 1], IndexOf(t, '-');
    DashInCut(t);
    if k < RANGE_SIZE - 1 {
      ParseRangeIff(cut, maxVal, r);
      DenotesUpper(cut, maxVal, r);
      assert cut[..k] == t[..k] && cut[k + 1..] == t[k + 1..RANGE_SIZE - 1];
    }
  }

  /** A long token is read as what it means, or refused if it means nothing, if and only if the cut is harmless. */
  lemma LongTokenIff(t: string, maxVal: int)
    requires |t| >= RANGE_SIZE && '-' in t && 0 <= maxVal <= INT_MAX
    requires IndexOf(t, '-') < RANGE_SIZE - 1 ==> FitsInt(t[..RANGE_SIZE - 1])
    ensures (forall r :: ParseRange(t, maxVal) == Ok(r) <==> Denotes(t, maxVal, r)) <==> HarmlessCut(t, maxVal)
  {
    var k := IndexOf(t, '-');
    forall r
      ensures Denotes(t, maxVal, r) <==> Number(t[..k], maxVal, r.lo) && Upper(t[k + 1..], r.lo, maxVal) == Some(r.hi)
      ensures ParseRange(t, maxVal) == Ok(r) <==>
                && k < RANGE_SIZE - 1 && Number(t[..k], maxVal, r.lo)
                && Upper(t[k + 1..RANGE_SIZE - 1], r.lo, maxVal) == Some(r.hi)
    {
      DenotesUpper(t, maxVal, r);
      LongTokenReads(t, maxVal, r);
    }
    if !HarmlessCut(t, maxVal) {
      var lo := Value10(t[..k]);
      var u := Upper(t[k + 1..], lo, maxVal);
      var v := if k < RANGE_SIZE - 1 then Upper(t[k + 1..RANGE_SIZE - 1], lo, maxVal) else None;
      var r := Span(lo, if u.Some? then u.value else v.value);
      assert ParseRange(t, maxVal) == Ok(r) <==> v == Some(r.hi);
    }
  }

  lemma {:induction false} PrefixValue(s: string, m: nat)
    requires IsDigits(s) && m < |s|
    ensures Value10(s) >= 10 * Value10(s[..m]) && (Value10(s) == 0 ==> Value10(s[..m]) == 0)
    decreases |s|
  {
    var p := s[..|s| - 1];
    if m < |p| {
      PrefixValue(p, m);
      assert p[..m] == s[..m];
    } else {
      assert s[..m] == p;
    }
  }

  /**
    So a long range that means something is read right if and only if its dash is among the
    first 15 characters and its upper end is 0, or the dash is the last of them and the upper
    end is the largest value there is.
   */
  lemma LongRangeIff(t: string, maxVal: int, r: Span)
    requires |t| >= RANGE_SIZE && '-' in t && 0 <= maxVal <= INT_MAX && Denotes(t, maxVal, r)
    ensures var k := IndexOf(t, '-');
            ParseRange(t, maxVal) == Ok(r) <==>
              (k < RANGE_SIZE - 2 && r.hi == 0) || (k == RANGE_SIZE - 2 && r.hi == maxVal - 1)
  {
    var k := IndexOf(t, '-');
    DenotesUpper(t, maxVal, r);
    if k < RANGE_SIZE - 1 {
      UpperOfPrefix(t[k + 1..], RANGE_SIZE - 2 - k, r.lo, maxVal, r.hi);
      assert t[k + 1..RANGE_SIZE - 1] == t[k + 1..][..RANGE_SIZE - 2 - k];
      CutFits(t, maxVal, r.lo);
      LongTokenReads(t, maxVal, r);
    } else {
      DashInCut(t);
    }
  }

  lemma UpperOfPrefix(s: string, m: nat, lo: int, maxVal: int, hi: int)
    requires m < |s| && 0 <= lo <= hi && Upper(s, lo, maxVal) == Some(hi)
    ensures Upper(s[..m], lo, maxVal) == Some(hi) <==> if m == 0 then hi == maxVal - 1 else hi == 0
  {
    PrefixValue(s, m);
  }

  lemma CutFits(t: string, maxVal: int, v: int)
    requires |t| >= RANGE_SIZE && '-' in t && IndexOf(t, '-') < RANGE_SIZE - 1 && maxVal <= INT_MAX
    requires var k := IndexOf(t, '-'); Number(t[..k], maxVal, v) && IsDigits(t[k + 1..]) && Value10(t[k + 1..]) < maxVal
    ensures FitsInt(t[..RANGE_SIZE - 1])
  {
    var cut, k := t[..RANGE_SIZE - 1], IndexOf(t, '-');
    var behind := t[k + 1..];
    DashInCut(t);
    assert cut[..k] == t[..k];
    assert cut[k + 1..] == behind[..RANGE_SIZE - 2 - k];
    PrefixValue(behind, RANGE_SIZE - 2 - k);
  }

  lemma {:induction false} NoughtsInFront(s: string)
    requires IsDigits(s)
    ensures IsDigits("0" + s) && Value10("0" + s) == Value10(s)
  {
    var t := "0" + s;
    if s != "" {
      NoughtsInFront(s[..|s| - 1]);
      assert t[..|t| - 1] == "0" + s[..|s| - 1];
    } else {
      assert t == "0" && t[..0] == "" && Value10("") == 0;
    }
  }

  lemma CutToTwo(t: string, to: string)
    requires |to| == 14 && (forall k :: 0 <= k < 12 ==> to[k] == '0') && to[12..] == "14" && t == "0-" + to
    ensures Denotes(t, 100, Span(0, 14)) && ParseRange(t, 100) == Ok(Span(0, 1))
  {
    Padded(to, "14", 12);
    ValueOfTwo('1', '4');
    Padded(to[..13], "1", 12);
    ValueOfOne('1');
    ValueOfOne('0');
    DenotesFrom(t, to, 14);
    SelectsTo(t[..15], to[..13], 1);
    assert t[1] == '-' == t[..15][1];
  }

  /** So a range to 14 that is padded with noughts denotes fifteen values and selects two. */
  lemma LongTokenIsCut()
    ensures exists t :: Denotes(t, 100, Span(0, 14)) && ParseRange(t, 100) == Ok(Span(0, 1))
  {
    var to := "00000000000014";
    var t := "0-" + to;
    CutToTwo(t, to);
  }

  lemma ValueOfOne(c: char)
    requires '0' <= c <= '9'
    ensures IsDigits([c]) && Value10([c]) == c as int - '0' as int
  {
    assert [c][..0] == "" && Value10("") == 0;
  }

  lemma ValueOfTwo(c: char, d: char)
    requires '0' <= c <= '9' && '0' <= d <= '9'
    ensures IsDigits([c, d]) && Value10([c, d]) == 10 * (c as int - '0' as int) + (d as int - '0' as int)
  {
    ValueOfOne(c);
    assert [c, d][..1] == [c];
  }

  lemma DenotesFrom(t: string, to: string, v: int)
    requires t == "0-" + to && to != "" && IsDigits(to) && Value10(to) == v && 0 <= v < 100
    ensures Denotes(t, 100, Span(0, v))
  {
    assert t[..1] == "0" && t[2..] == to;
    ValueOfOne('0');
    assert DenotesRange(t, 1, 100, Span(0, v));
  }

  lemma SelectsTo(t: string, to: string, v: int)
    requires t == "0-" + to && to != "" && IsDigits(to) && Value10(to) == v && 0 <= v < 100 && |t| < RANGE_SIZE
    ensures ParseRange(t, 100) == Ok(Span(0, v))
  {
    DenotesFrom(t, to, v);
    PaddedFits(t, to, v);
    ParseRangeIff(t, 100, Span(0, v));
  }

  lemma PaddedFits(t: string, to: string, v: int)
    requires t == "0-" + to && IsDigits(to) && Value10(to) == v < 100
    ensures FitsInt(t)
  {
    assert t[0] == '0' && t[1] == '-';
    var k := IndexOf(t, '-');
    assert k == 1 && t[..1] == "0" && t[2..] == to;
    ValueOfOne('0');
  }

  lemma {:induction false} Padded(t: string, s: string, n: nat)
    requires IsDigits(s) && |t| == n + |s| && t[n..] == s && forall k :: 0 <= k < n ==> t[k] == '0'
    ensures IsDigits(t) && Value10(t) == Value10(s)
    decreases n
  {
    if n > 0 {
      Padded(t[1..], s, n - 1);
      assert t == "0" + t[1..];
      NoughtsInFront(t[1..]);
    } else {
      assert t == s;
    }
  }

  // ----- Lists

  /** The tokens in front of the first one that is refused. */
  function Accepted(toks: seq<string>, maxVal: int, keyword: string): (n: nat)
    ensures n <= |toks|
  {
    if toks == [] || (toks[0] != keyword && ParseRange(toks[0], maxVal).Fail?) then 0
    else 1 + Accepted(toks[1..], maxVal, keyword)
  }

  function AcceptedTokens(arg: string, maxVal: int, keyword: string): seq<string> {
    Tokens(arg, ',', 0)[..Accepted(Tokens(arg, ',', 0), maxVal, keyword)]
  }

  /** Bit k is selected by a token: bit 0 by the keyword, bit i + 1 by value i. */
  predicate Selects(tok: string, maxVal: int, keyword: string, k: nat) {
    if tok == keyword then k == 0
    else match ParseRange(tok, maxVal) case Ok(r) => r.lo <= k - 1 <= r.hi case Fail => false
  }

  predicate Selected(toks: seq<string>, maxVal: int, keyword: string, k: nat) {
    exists j :: 0 <= j < |toks| && Selects(toks[j], maxVal, keyword, k)
  }

  function BitmapSize(m: nat): nat { (m + 1) / 8 + 1 }

  method SetRange(bitmap: array<bv8>, r: Span, maxVal: int)
    requires 0 <= r.lo <= r.hi < maxVal && bitmap.Length == BitmapSize(maxVal)
    modifies bitmap
    ensures forall k: nat :: k / 8 < bitmap.Length ==>
              (Bit(bitmap[..], k) <==> old(Bit(bitmap[..], k)) || r.lo <= k - 1 <= r.hi)
  {
    for i := r.lo to r.hi + 1
      invariant forall k: nat :: k / 8 < bitmap.Length ==>
                  (Bit(bitmap[..], k) <==> old(Bit(bitmap[..], k)) || r.lo <= k - 1 < i)
    {
      SetBit(bitmap, i + 1);
    }
  }

  /** memset of the whole bitmap. */
  method SetAll(bitmap: array<bv8>)
    modifies bitmap
    ensures forall k: nat :: k / 8 < bitmap.Length ==> Bit(bitmap[..], k)
  {
    for i := 0 to bitmap.Length
      invariant forall j :: 0 <= j < i ==> bitmap[j] == 0xFF
    {
      bitmap[i] := 0xFF;
    }
  }

  const K_ALL := "ALL"

  /**
    parse_values: no bit is ever cleared, and exactly the bits of the tokens in front of the first
    one that is refused are set. Of plain tokens, those that mean nothing are refused, and the
    others set the bits that they mean.
   */
  method ParseValues(arg: string, bitmap: array<bv8>, maxVal: int, keyword: string) returns (failed: bool)
    requires maxVal >= 0 && bitmap.Length == BitmapSize(maxVal)
    modifies bitmap
    ensures arg == K_ALL ==> !failed && forall k: nat :: k / 8 < bitmap.Length ==> Bit(bitmap[..], k)
    ensures arg != K_ALL ==> (failed <==> Accepted(Tokens(arg, ',', 0), maxVal, keyword) < |Tokens(arg, ',', 0)|)
    ensures arg != K_ALL ==> forall k: nat :: k / 8 < bitmap.Length ==>
              (Bit(bitmap[..], k) <==>
                old(Bit(bitmap[..], k)) || Selected(AcceptedTokens(arg, maxVal, keyword), maxVal, keyword, k))
    ensures arg != K_ALL && maxVal <= INT_MAX && PlainList(Tokens(arg, ',', 0)) ==>
              (failed <==> !MeaningfulList(Tokens(arg, ',', 0), maxVal, keyword))
    ensures arg != K_ALL && maxVal <= INT_MAX && PlainList(Tokens(arg, ',', 0)) && !failed ==>
              forall k: nat :: k / 8 < bitmap.Length ==>
                (Bit(bitmap[..], k) <==> old(Bit(bitmap[..], k)) || ListMeans(Tokens(arg, ',', 0), maxVal, keyword, k))
  {
    if arg == K_ALL {
      SetAll(bitmap);
      return false;
    }
    failed := ParseTokens(arg, bitmap, maxVal, keyword);
    ghost var toks := Tokens(arg, ',', 0);
    if maxVal <= INT_MAX && PlainList(toks) {
      PlainListIff(arg, maxVal, keyword);
    }
  }

  lemma PlainListIff(arg: string, maxVal: int, keyword: string)
    requires 0 <= maxVal <= INT_MAX && PlainList(Tokens(arg, ',', 0))
    ensures var toks := Tokens(arg, ',', 0);
            && (Accepted(toks, maxVal, keyword) == |toks| <==> MeaningfulList(toks, maxVal, keyword))
            && (Accepted(toks, maxVal, keyword) == |toks| ==> AcceptedTokens(arg, maxVal, keyword) == toks)
            && (forall k: nat :: Selected(toks, maxVal, keyword, k) <==> ListMeans(toks, maxVal, keyword, k))
  {
    var toks := Tokens(arg, ',', 0);
    ListIff(toks, maxVal, keyword, 0);
    forall k: nat ensures Selected(toks, maxVal, keyword, k) <==> ListMeans(toks, maxVal, keyword, k) {
      ListIff(toks, maxVal, keyword, k);
    }
    assert toks[..|toks|] == toks;
  }

  /** The loop over the tokens has accepted n of them, and holds the next one. */
  ghost predicate AtToken(arg: string, toks: seq<string>, n: nat, t: Option<string>, pos: nat, maxVal: int,
                          keyword: string)
  {
    && pos <= |arg| && n <= |toks|
    && toks[n..] == (if t.Some? then [t.value] + Tokens(arg, ',', pos) else [])
    && Accepted(toks, maxVal, keyword) == n + Accepted(toks[n..], maxVal, keyword)
  }

  lemma AcceptedStep(arg: string, toks: seq<string>, n: nat, t: Option<string>, pos: nat, maxVal: int, keyword: string)
    requires AtToken(arg, toks, n, t, pos, maxVal, keyword) && t.Some?
    ensures n < |toks| && toks[n] == t.value && toks[n + 1..] == Tokens(arg, ',', pos)
    ensures t.value != keyword && ParseRange(t.value, maxVal).Fail? ==> Accepted(toks, maxVal, keyword) == n
    ensures t.value == keyword || ParseRange(t.value, maxVal).Ok? ==>
              Accepted(toks, maxVal, keyword) == n + 1 + Accepted(toks[n + 1..], maxVal, keyword)
  {
    assert toks[n..][0] == toks[n] && toks[n..][1..] == toks[n + 1..];
    assert ([t.value] + Tokens(arg, ',', pos))[1..] == Tokens(arg, ',', pos);
  }

  /** The loop over the tokens. */
  method ParseTokens(arg: string, bitmap: array<bv8>, maxVal: int, keyword: string) returns (failed: bool)
    requires maxVal >= 0 && bitmap.Length == BitmapSize(maxVal)
    modifies bitmap
    ensures failed <==> Accepted(Tokens(arg, ',', 0), maxVal, keyword) < |Tokens(arg, ',', 0)|
    ensures forall k: nat :: k / 8 < bitmap.Length ==>
              (Bit(bitmap[..], k) <==>
                old(Bit(bitmap[..], k)) || Selected(AcceptedTokens(arg, maxVal, keyword), maxVal, keyword, k))
  {
    ghost var toks := Tokens(arg, ',', 0);
    ghost var n := 0;
    var t, pos := Strtok(arg, ',', 0);
    while t.Some?
      invariant AtToken(arg, toks, n, t, pos, maxVal, keyword)
      invariant forall k: nat :: k / 8 < bitmap.Length ==>
                  (Bit(bitmap[..], k) <==> old(Bit(bitmap[..], k)) || Selected(toks[..n], maxVal, keyword, k))
      decreases |toks| - n
    {
      AcceptedStep(arg, toks, n, t, pos, maxVal, keyword);
      failed := ParseToken(t.value, bitmap, maxVal, keyword);
      if failed {
        return;
      }
      SelectedStep(toks, n, maxVal, keyword);
      t, pos := Strtok(arg, ',', pos);
      n := n + 1;
    }
    failed := false;
  }

  /** One token: sets what it selects, or nothing if it is refused. */
  method ParseToken(t: string, bitmap: array<bv8>, maxVal: int, keyword: string) returns (failed: bool)
    requires maxVal >= 0 && bitmap.Length == BitmapSize(maxVal)
    modifies bitmap
    ensures failed <==> t != keyword && ParseRange(t, maxVal).Fail?
    ensures forall k: nat :: k / 8 < bitmap.Length ==>
              (Bit(bitmap[..], k) <==> old(Bit(bitmap[..], k)) || Selects(t, maxVal, keyword, k))
  {
    if t == keyword {
      SetBit(bitmap, 0);
      return false;
    }
    var r := ParseRange(t, maxVal);
    if r.Fail? {
      return true;
    }
    SetRange(bitmap, r.value, maxVal);
    failed := false;
  }

  lemma SelectedStep(toks: seq<string>, n: nat, maxVal: int, keyword: string)
    requires n < |toks|
    ensures forall k: nat :: Selected(toks[..n + 1], maxVal, keyword, k) <==>
              Selected(toks[..n], maxVal, keyword, k) || Selects(toks[n], maxVal, keyword, k)
    ensures toks[n..][1..] == toks[n + 1..]
  {
    forall k: nat
      ensures Selected(toks[..n + 1], maxVal, keyword, k) <==>
                Selected(toks[..n], maxVal, keyword, k) || Selects(toks[n], maxVal, keyword, k)
    {
      var p := toks[..n + 1];
      assert forall j :: 0 <= j < n ==> p[j] == toks[..n][j];
      assert p[n] == toks[n];
    }
  }

  // ----- What a list means

  /** A token that is not cut and holds no number beyond int. */
  predicate Plain(tok: string) {
    Uncut(tok) && FitsInt(tok)
  }

  ghost predicate Means(tok: string, maxVal: int, keyword: string, k: nat) {
    if tok == keyword then k == 0 else exists r :: Denotes(tok, maxVal, r) && r.lo <= k - 1 <= r.hi
  }

  predicate PlainList(toks: seq<string>) {
    forall j :: 0 <= j < |toks| ==> Plain(toks[j])
  }

  ghost predicate MeaningfulList(toks: seq<string>, maxVal: int, keyword: string) {
    forall j :: 0 <= j < |toks| ==> toks[j] == keyword || exists r :: Denotes(toks[j], maxVal, r)
  }

  ghost predicate ListMeans(toks: seq<string>, maxVal: int, keyword: string, k: nat) {
    exists j :: 0 <= j < |toks| && Means(toks[j], maxVal, keyword, k)
  }

  lemma SelectsIff(tok: string, maxVal: int, keyword: string, k: nat)
    requires Plain(tok) && 0 <= maxVal <= INT_MAX
    ensures Selects(tok, maxVal, keyword, k) <==> Means(tok, maxVal, keyword, k)
  {
    if tok != keyword {
      forall r ensures ParseRange(tok, maxVal) == Ok(r) <==> Denotes(tok, maxVal, r) { ParseRangeIff(tok, maxVal, r); }
    }
  }

  /**
    A list is accepted exactly if each of its tokens is the keyword or denotes a range, and then
    selects what they mean.
   */
  lemma ListIff(toks: seq<string>, maxVal: int, keyword: string, k: nat)
    requires PlainList(toks) && 0 <= maxVal <= INT_MAX
    ensures Accepted(toks, maxVal, keyword) == |toks| <==> MeaningfulList(toks, maxVal, keyword)
    ensures Selected(toks, maxVal, keyword, k) <==> ListMeans(toks, maxVal, keyword, k)
  {
    AcceptedAll(toks, maxVal, keyword);
    forall j | 0 <= j < |toks|
      ensures ParseRange(toks[j], maxVal).Ok? <==> exists r :: Denotes(toks[j], maxVal, r)
      ensures Selects(toks[j], maxVal, keyword, k) <==> Means(toks[j], maxVal, keyword, k)
    {
      SelectsIff(toks[j], maxVal, keyword, k);
      forall r
        ensures ParseRange(toks[j], maxVal) == Ok(r) <==> Denotes(toks[j], maxVal, r)
      { ParseRangeIff(toks[j], maxVal, r); }
      assert ParseRange(toks[j], maxVal).Ok? ==> Denotes(toks[j], maxVal, ParseRange(toks[j], maxVal).value);
    }
  }

  lemma {:induction false} AcceptedAll(toks: seq<string>, maxVal: int, keyword: string)
    ensures Accepted(toks, maxVal, keyword) == |toks| <==>
              forall j :: 0 <= j < |toks| ==> toks[j] == keyword || ParseRange(toks[j], maxVal).Ok?
  {
    if toks != [] {
      AcceptedAll(toks[1..], maxVal, keyword);
      assert forall j :: 1 <= j < |toks| ==> toks[j] == toks[1..][j - 1];
    }
  }
}
