/** strtok: the parts of a string between separators. */
module Tokenizer {
  import opened Wrappers

  /** What strtok finds from position i on: the parts between separators that are not empty. */
  function Tokens(s: string, sep: char, i: nat): seq<string>
    requires i <= |s|
    decreases |s| - i
  {
    if i == |s| then []
    else if s[i] == sep then Tokens(s, sep, i + 1)
    else
      var e := TokenEnd(s, sep, i);
      [s[i..e]] + Tokens(s, sep, e)
  }

  function TokenEnd(s: string, sep: char, i: nat): (e: nat)
    requires i < |s| && s[i] != sep
    ensures i < e <= |s| && (forall k :: i <= k < e ==> s[k] != sep) && (e < |s| ==> s[e] == sep)
    decreases |s| - i
  {
    if i + 1 == |s| || s[i + 1] == sep then i + 1 else TokenEnd(s, sep, i + 1)
  }

  /** strtok from position `pos`. */
  method Strtok(s: string, sep: char, pos: nat) returns (t: Option<string>, next: nat)
    requires pos <= |s|
    ensures pos <= next <= |s|
    ensures t.None? ==> Tokens(s, sep, pos) == []
    ensures t.Some? ==> pos < next && Tokens(s, sep, pos) == [t.value] + Tokens(s, sep, next)
  {
    var b := pos;
    while b < |s| && s[b] == sep
      invariant pos <= b <= |s| && Tokens(s, sep, b) == Tokens(s, sep, pos)
    {
      b := b + 1;
    }
    if b == |s| {
      return None, b;
    }
    next := b + 1;
    while next < |s| && s[next] != sep
      invariant b < next <= |s| && s[next - 1] != sep && TokenEnd(s, sep, next - 1) == TokenEnd(s, sep, b)
    {
      next := next + 1;
    }
    t := Some(s[b..next]);
  }

  /** The token at position `pos`, found by calling strtok for each of those in front of it. */
  method Nth(s: string, sep: char, pos: nat) returns (t: Option<string>, n: nat)
    ensures t.Some? ==> n == 0
    ensures t == if pos < |Tokens(s, sep, 0)| then Some(Tokens(s, sep, 0)[pos]) else None
  {
    ghost var all := Tokens(s, sep, 0);
    ghost var m := 0;
    n := pos;
    var next;
    t, next := Strtok(s, sep, 0);
    while t.Some? && n > 0
      invariant n + m == pos && next <= |s| && m <= |all| && (t.Some? ==> m < |all| && all[m] == t.value)
      invariant all[m..] == (if t.Some? then [t.value] + Tokens(s, sep, next) else [])
      decreases n
    {
      assert all[m + 1..] == all[m..][1..];
      t, next := Strtok(s, sep, next);
      n, m := n - 1, m + 1;
    }
    assert t.None? ==> |all[m..]| == 0;
  }

  function Joined(toks: seq<string>, sep: char): string {
    if toks == [] then "" else toks[0] + [sep] + Joined(toks[1..], sep)
  }

  /** A list without its needless separators: those in front, behind, and next to each other. */
  function Tidy(s: string, sep: char, i: nat): string
    requires i <= |s|
    decreases |s| - i
  {
    if i == |s| then ""
    else if s[i] == sep then Tidy(s, sep, i + 1)
    else if i + 1 == |s| || s[i + 1] == sep then [s[i], sep] + Tidy(s, sep, i + 1)
    else [s[i]] + Tidy(s, sep, i + 1)
  }

  /** Nothing of the list is lost: the tokens, with a separator behind each, are the tidy list. */
  lemma {:induction false} TokensAreTheList(s: string, sep: char, i: nat)
    requires i <= |s|
    ensures Joined(Tokens(s, sep, i), sep) == Tidy(s, sep, i)
    decreases |s| - i
  {
    if i < |s| {
      if s[i] == sep {
        TokensAreTheList(s, sep, i + 1);
      } else {
        var e := TokenEnd(s, sep, i);
        TokensAreTheList(s, sep, e);
        TidyToken(s, sep, i);
        assert ([s[i..e]] + Tokens(s, sep, e))[1..] == Tokens(s, sep, e);
      }
    }
  }

  lemma {:induction false} TidyToken(s: string, sep: char, i: nat)
    requires i < |s| && s[i] != sep
    ensures Tidy(s, sep, i) == s[i..TokenEnd(s, sep, i)] + [sep] + Tidy(s, sep, TokenEnd(s, sep, i))
    decreases |s| - i
  {
    var e := TokenEnd(s, sep, i);
    if i + 1 < e {
      TidyToken(s, sep, i + 1);
    } else {
      assert s[i..e] == [s[i]] && [s[i]] + [sep] == [s[i], sep];
    }
  }

  /** No token is empty, and none holds a separator. */
  lemma {:induction false} TokensAreWords(s: string, sep: char, i: nat)
    requires i <= |s|
    ensures forall k :: 0 <= k < |Tokens(s, sep, i)| ==> Tokens(s, sep, i)[k] != "" && sep !in Tokens(s, sep, i)[k]
    decreases |s| - i
  {
    if i < |s| {
      TokensAreWords(s, sep, if s[i] == sep then i + 1 else TokenEnd(s, sep, i));
    }
  }

  lemma {:induction false} TokensAreParts(s: string, sep: char, i: nat)
    requires i <= |s|
    ensures forall k :: 0 <= k < |Tokens(s, sep, i)| ==>
              |Tokens(s, sep, i)[k]| <= |s| && forall c :: c in Tokens(s, sep, i)[k] ==> c in s
    decreases |s| - i
  {
    if i < |s| {
      TokensAreParts(s, sep, if s[i] == sep then i + 1 else TokenEnd(s, sep, i));
    }
  }

  /** strcspn: the position of the first `c`, or the length. */
  function IndexOf(s: string, c: char): (k: nat)
    ensures k <= |s| && forall i :: 0 <= i < k ==> s[i] != c
    ensures k < |s| ==> s[k] == c
  {
    ScanStops(s, c, 0);
    Scan(s, c, 0)
  }

  function Scan(s: string, c: char, from: nat): nat
    requires from <= |s|
    decreases |s| - from
  {
    if from == |s| || s[from] == c then from else Scan(s, c, from + 1)
  }

  lemma {:induction false} ScanStops(s: string, c: char, from: nat)
    requires from <= |s|
    ensures from <= Scan(s, c, from) <= |s| && forall i :: from <= i < Scan(s, c, from) ==> s[i] != c
    ensures Scan(s, c, from) < |s| ==> s[Scan(s, c, from)] == c
    decreases |s| - from
  {
    if from < |s| && s[from] != c { ScanStops(s, c, from + 1); }
  }
}
