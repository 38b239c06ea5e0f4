/** The numerals that the ioconf device namer writes (ioc_conv): decimal, and base 26 without a zero. */
module Numerals {
  import opened Arithmetic

  const DECIMAL: string := "0123456789"

  /** The symbols of ioc_ito26, by value modulo 26. */
  const LETTERS: string := "zabcdefghijklmnopqrstuvwxy"

  /** What the loop of ioc_conv leaves of `val` when it has written the last symbol. */
  function Rest(radix: int, nozero: bool, val: nat): (r: nat)
    requires 2 <= radix && val > 0
    ensures r < val
    ensures r * radix <= val
  {
    if nozero && val % radix == 0 then val / radix - 1 else val / radix
  }

  /** The symbols that the loop of ioc_conv writes for `val`. */
  function Symbols(radix: int, nozero: bool, syms: string, val: nat): string
    requires 2 <= radix == |syms|
    decreases val
  {
    if val == 0 then "" else Symbols(radix, nozero, syms, Rest(radix, nozero, val)) + [syms[val % radix]]
  }

  /** A 32-bit unsigned sum with 0 or 1. */
  function Wrapped(x: nat): nat {
    if x == TWO_32 then 0 else x
  }

  /** ioc_conv: the argument is a 32-bit number, and so is the sum with `nozero`. */
  function Conv(radix: int, nozero: bool, syms: string, val: nat): string
    requires 2 <= radix == |syms| && val < TWO_32
  {
    var v := Wrapped(val + if nozero then 1 else 0);
    if v == 0 && !nozero then "0" else Symbols(radix, nozero, syms, v)
  }

  function Pow4(n: nat): nat {
    if n == 0 then 1 else 4 * Pow4(n - 1)
  }

  /** ioc_conv writes its symbols backwards into a buffer of 17 bytes, the last of which ends the string. */
  method IocConv(radix: int, nozero: bool, syms: string, n: nat) returns (s: string)
    requires 4 <= radix == |syms| && n < TWO_32
    ensures s == Conv(radix, nozero, syms, n)
    ensures |s| <= 16
  {
    var out := new char[17];
    var p := 16;
    out[p] := '\0';
    var val := Wrapped(n + if nozero then 1 else 0);
    ghost var v := val;
    if val == 0 {
      if !nozero {
        p := p - 1;
        out[p] := '0';
      }
      return out[p..16];
    }
    RoomForSixteen();
    while val > 0
      invariant 0 <= p <= 16 && 0 <= val < Pow4(p)
      invariant Symbols(radix, nozero, syms, v) == Symbols(radix, nozero, syms, val) + out[p..16]
      decreases val
    {
      ghost var rest, written := Rest(radix, nozero, val), out[p..16];
      RestFits(radix, nozero, val, p);
      var j := val % radix;
      p := p - 1;
      out[p] := syms[j];
      assert out[p..16] == [syms[j]] + written;
      val := val / radix;
      if nozero && j == 0 {
        val := val - 1;
      }
      assert val == rest;
    }
    return out[p..16];
  }

  lemma RoomForSixteen()
    ensures Pow4(16) == TWO_32
  {
    assert Pow4(4) == 256;
    assert Pow4(8) == 65536;
    assert Pow4(12) == 16777216;
  }

  /** One symbol of a radix of at least 4 leaves room for the rest. */
  lemma RestFits(radix: int, nozero: bool, val: nat, p: nat)
    requires 4 <= radix && 0 < val < Pow4(p)
    ensures p > 0 && Rest(radix, nozero, val) < Pow4(p - 1)
  {
    var r := Rest(radix, nozero, val);
    MulMonotone(r, 4, radix);
    assert r * 4 <= val;
  }

  function Ito10(n: nat): string
    requires n < TWO_32
  {
    Conv(10, false, DECIMAL, n)
  }

  function Ito26(n: nat): string
    requires n < TWO_32
  {
    Conv(26, true, LETTERS, n)
  }

  // ----- Base 26 without a zero: an independent reading of letter strings

  predicate IsLetters(s: string) {
    forall i :: 0 <= i < |s| ==> 'a' <= s[i] <= 'z'
  }

  /** a is 1, ..., z is 26. */
  function LetterValue(c: char): int
    requires 'a' <= c <= 'z'
  {
    c as int - 'a' as int + 1
  }

  function Value26(s: string): nat
    requires IsLetters(s)
  {
    if s == "" then 0 else 26 * Value26(s[..|s| - 1]) + LetterValue(s[|s| - 1])
  }

  lemma {:induction false} SymbolsHaveValue(v: nat)
    ensures var s := Symbols(26, true, LETTERS, v); IsLetters(s) && Value26(s) == v
    decreases v
  {
    if v > 0 {
      var r := Rest(26, true, v);
      SymbolsHaveValue(r);
      var s := Symbols(26, true, LETTERS, v);
      assert s[..|s| - 1] == Symbols(26, true, LETTERS, r);
      assert v == 26 * (v / 26) + v % 26;
    }
  }

  lemma {:induction false} LettersAreSymbols(s: string)
    requires IsLetters(s)
    ensures Symbols(26, true, LETTERS, Value26(s)) == s
  {
    if s != "" {
      LettersAreSymbols(s[..|s| - 1]);
      LastLetterOf(s);
      assert s == s[..|s| - 1] + [s[|s| - 1]];
    }
  }

  lemma LastLetterOf(s: string)
    requires IsLetters(s) && s != ""
    ensures var n := |s| - 1;
            Symbols(26, true, LETTERS, Value26(s)) == Symbols(26, true, LETTERS, Value26(s[..n])) + [s[n]]
  {
    var n := |s| - 1;
    var v := Value26(s);
    assert v == 26 * Value26(s[..n]) + LetterValue(s[n]);
    LastLetter(Value26(s[..n]), LetterValue(s[n]), s[n], v);
  }

  lemma LastLetter(v: nat, d: int, c: char, val: nat)
    requires 'a' <= c <= 'z' && d == LetterValue(c) && val == 26 * v + d
    ensures Symbols(26, true, LETTERS, val) == Symbols(26, true, LETTERS, v) + [c]
  {
    if d == 26 {
      assert val % 26 == 0 && val / 26 == v + 1;
    } else {
      assert val % 26 == d && val / 26 == v;
    }
    assert Rest(26, true, val) == v && LETTERS[val % 26] == c;
  }

  /**
    Reading ioc_ito26(n) back gives n, exactly if n is not the largest 32-bit number: there the
    sum with `nozero` wraps and the string is empty.
   */
  lemma Ito26RoundTrip(n: nat)
    requires n < TWO_32
    ensures var s := Ito26(n);
            && IsLetters(s)
            && (s != "" && Value26(s) - 1 == n <==> n != TWO_32 - 1)
            && (n == TWO_32 - 1 ==> s == "")
  {
    SymbolsHaveValue(Wrapped(n + 1));
  }

  lemma Ito26Is(n: nat, v: nat)
    requires n < TWO_32 - 1 && v == n + 1
    ensures Ito26(n) == Symbols(26, true, LETTERS, v)
  {
  }

  lemma NumberOfString(s: string) returns (n: int)
    requires IsLetters(s) && s != ""
    ensures n == Value26(s) - 1 && n >= 0
  {
    n := 26 * Value26(s[..|s| - 1]) + LetterValue(s[|s| - 1]) - 1;
  }

  /** Every non-empty letter string whose value is in range is the numeral of one number. */
  lemma Ito26HitsAllStrings(s: string)
    requires IsLetters(s) && s != "" && Value26(s) < TWO_32
    ensures exists n: nat :: n < TWO_32 - 1 && n + 1 == Value26(s) && Ito26(n) == s
  {
    var n := NumberOfString(s);
    LettersAreSymbols(s);
    Ito26Is(n, Value26(s));
  }

  // ----- Order: shorter numerals are smaller, numerals of one length are in alphabetical order

  ghost predicate Before(s: string, t: string) {
    |s| < |t| || (|s| == |t| && exists k :: 0 <= k < |s| && s[..k] == t[..k] && s[k] < t[k])
  }

  /** The least value of a string of `n` letters: that of n letters a. */
  function Least(n: nat): nat {
    if n == 0 then 0 else 26 * Least(n - 1) + 1
  }

  lemma {:induction false} ValueRange(s: string)
    requires IsLetters(s)
    ensures Least(|s|) <= Value26(s) < Least(|s| + 1)
  {
    if s != "" { ValueRange(s[..|s| - 1]); }
  }

  lemma {:induction false} LeastGrows(m: nat, n: nat)
    requires m <= n
    ensures Least(m) <= Least(n)
    decreases n
  {
    if m < n { LeastGrows(m, n - 1); }
  }

  lemma {:induction false} BeforeIsSmaller(s: string, t: string)
    requires IsLetters(s) && IsLetters(t) && Before(s, t)
    ensures Value26(s) < Value26(t)
  {
    ValueRange(s);
    ValueRange(t);
    if |s| < |t| {
      LeastGrows(|s| + 1, |t|);
    } else {
      var n := |s| - 1;
      var k :| 0 <= k < |s| && s[..k] == t[..k] && s[k] < t[k];
      if k < n {
        assert s[..n][..k] == s[..k] && t[..n][..k] == t[..k] && s[..n][k] < t[..n][k];
        BeforeIsSmaller(s[..n], t[..n]);
      }
    }
  }

  /** Of two different letter strings one is before the other. */
  lemma BeforeIsTotal(s: string, t: string)
    ensures s == t || Before(s, t) || Before(t, s)
  {
    if |s| == |t| && s != t {
      var k :| 0 <= k < |s| && s[k] != t[k];
      var m := FirstDifference(s, t, k);
    }
  }

  lemma FirstDifference(s: string, t: string, k: nat) returns (m: nat)
    requires |s| == |t| && k < |s| && s[k] != t[k]
    ensures m <= k && s[..m] == t[..m] && s[m] != t[m]
  {
    m := 0;
    while s[m] == t[m]
      invariant m <= k && s[..m] == t[..m]
      decreases k - m
    {
      m := m + 1;
    }
  }

  lemma SymbolsKeepOrder(v: nat, w: nat)
    ensures v < w <==> Before(Symbols(26, true, LETTERS, v), Symbols(26, true, LETTERS, w))
  {
    var s, t := Symbols(26, true, LETTERS, v), Symbols(26, true, LETTERS, w);
    SymbolsHaveValue(v);
    SymbolsHaveValue(w);
    BeforeIsTotal(s, t);
    if Before(s, t) { BeforeIsSmaller(s, t); }
    if Before(t, s) { BeforeIsSmaller(t, s); }
  }

  /** Numbers are in the order of their numerals. */
  lemma Ito26KeepsOrder(m: nat, n: nat)
    requires m < TWO_32 - 1 && n < TWO_32 - 1
    ensures m < n <==> Before(Ito26(m), Ito26(n))
  {
    SymbolsKeepOrder(m + 1, n + 1);
    Ito26Is(m, m + 1);
    Ito26Is(n, n + 1);
  }

  // ----- Decimal

  predicate IsDigits(s: string) {
    forall i :: 0 <= i < |s| ==> '0' <= s[i] <= '9'
  }

  function Value10(s: string): nat
    requires IsDigits(s)
  {
    if s == "" then 0 else 10 * Value10(s[..|s| - 1]) + (s[|s| - 1] as int - '0' as int)
  }

  /** A non-empty digit string without leading zeros. */
  predicate Canonical(s: string) {
    IsDigits(s) && s != "" && (s[0] == '0' ==> |s| == 1)
  }

  lemma {:induction false} DecimalSymbols(v: nat)
    ensures var s := Symbols(10, false, DECIMAL, v);
            IsDigits(s) && Value10(s) == v && (v > 0 ==> s != "" && s[0] != '0')
    decreases v
  {
    if v > 0 {
      var r := Rest(10, false, v);
      DecimalSymbols(r);
      var s := Symbols(10, false, DECIMAL, v);
      assert s[..|s| - 1] == Symbols(10, false, DECIMAL, r);
      assert DECIMAL[v % 10] as int == '0' as int + v % 10;
      assert v == 10 * (v / 10) + v % 10;
    }
  }

  lemma LastDigit(v: nat, d: int, c: char, val: nat)
    requires '0' <= c <= '9' && d == c as int - '0' as int && val == 10 * v + d && val > 0
    ensures Symbols(10, false, DECIMAL, val) == Symbols(10, false, DECIMAL, v) + [c]
  {
    assert val % 10 == d && val / 10 == v;
    assert Rest(10, false, val) == v && DECIMAL[d] == c;
  }

  lemma {:induction false} DigitsAreSymbols(s: string)
    requires IsDigits(s) && (s == "" || s[0] != '0')
    ensures Symbols(10, false, DECIMAL, Value10(s)) == s
    ensures s != "" ==> Value10(s) > 0
  {
    if s != "" {
      var n := |s| - 1;
      DigitsAreSymbols(s[..n]);
      LastDigitOf(s);
      assert s == s[..n] + [s[n]];
    }
  }

  lemma LastDigitOf(s: string)
    requires IsDigits(s) && s != "" && Value10(s) > 0
    ensures var n := |s| - 1;
            Symbols(10, false, DECIMAL, Value10(s)) == Symbols(10, false, DECIMAL, Value10(s[..n])) + [s[n]]
  {
    var n := |s| - 1;
    var d, v := s[n] as int - '0' as int, Value10(s);
    assert v == 10 * Value10(s[..n]) + d;
    LastDigit(Value10(s[..n]), d, s[n], v);
  }

  lemma OnlyZero(s: string)
    requires Canonical(s)
    ensures Value10(s) == 0 <==> s == "0"
  {
    if s[0] == '0' { assert s == "0" && s[..0] == ""; } else { DigitsAreSymbols(s); }
  }

  /** ioc_ito10 writes the one digit string without leading zeros that has the value of its argument. */
  lemma Ito10RoundTrip(n: nat, s: string)
    requires n < TWO_32
    ensures Canonical(Ito10(n)) && Value10(Ito10(n)) == n
    ensures Canonical(s) && Value10(s) == n ==> s == Ito10(n)
  {
    DecimalSymbols(n);
    assert Ito10(n) == if n == 0 then "0" else Symbols(10, false, DECIMAL, n);
    if n == 0 { OnlyZero("0"); }
    if Canonical(s) && Value10(s) == n {
      OnlyZero(s);
      if n > 0 { DigitsAreSymbols(s); }
    }
  }
}
