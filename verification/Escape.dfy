/** escape_bs_char: backslashes doubled for JSON, within a buffer of fixed size. */
module Escape {
  import opened Wrappers

  const MAX_NAME_LEN := 256

  function Escaped(s: string): string {
    if s == "" then "" else Escaped(s[..|s| - 1]) + (if s[|s| - 1] == '\\' then "\\\\" else [s[|s| - 1]])
  }

  /** What a reader of the JSON string makes of it; a single backslash at the end is not an escape. */
  function Unescaped(s: string): Option<string> {
    if s == "" then Some("")
    else if s[0] != '\\' then
      match Unescaped(s[1..]) { case Some(t) => Some([s[0]] + t) case None => None }
    else if |s| >= 2 && s[1] == '\\' then
      match Unescaped(s[2..]) { case Some(t) => Some("\\" + t) case None => None }
    else None
  }

  lemma {:induction false} EscapedStep(s: string, n: nat)
    requires n < |s|
    ensures Escaped(s[..n + 1]) == Escaped(s[..n]) + if s[n] == '\\' then "\\\\" else [s[n]]
  {
    assert s[..n + 1][..n] == s[..n];
  }

  /** Escaping in front: the reader works from the left, the writer from the right. */
  lemma {:induction false} EscapedFront(c: char, s: string)
    ensures Escaped([c] + s) == (if c == '\\' then "\\\\" else [c]) + Escaped(s)
  {
    var t := [c] + s;
    if s == "" {
      assert t[..0] == "" && Escaped("") == "";
    } else {
      assert t[..|t| - 1] == [c] + s[..|s| - 1] && t[|t| - 1] == s[|s| - 1];
      EscapedFront(c, s[..|s| - 1]);
    }
  }

  /** Nothing is lost by escaping. */
  lemma {:induction false} RoundTrip(s: string)
    ensures Unescaped(Escaped(s)) == Some(s)
  {
    if s != "" {
      assert s == [s[0]] + s[1..];
      EscapedFront(s[0], s[1..]);
      RoundTrip(s[1..]);
      var e := Escaped(s);
      if s[0] == '\\' {
        assert e[2..] == Escaped(s[1..]);
      } else {
        assert e[1..] == Escaped(s[1..]);
      }
    }
  }

  lemma {:induction false} EscapedGrows(s: string, m: nat, n: nat)
    requires m <= n <= |s|
    ensures |Escaped(s[..n])| >= |Escaped(s[..m])| + (n - m)
  {
    if m < n {
      EscapedGrows(s, m, n - 1);
      EscapedStep(s, n - 1);
    }
  }

  /** `n` is the length of the longest prefix whose escaped form fits in `room` characters. */
  ghost predicate LongestFit(s: string, n: nat, room: nat) {
    n <= |s| && |Escaped(s[..n])| <= room && forall m :: n < m <= |s| ==> |Escaped(s[..m])| > room
  }

  /**
    escape_bs_char on a string, or on NULL: `taken` characters of it are in the buffer, escaped
    and terminated. They are the longest prefix that fits, so that a backslash is never torn apart.
   */
  method EscapeBsChar(str: Option<string>, buffer: array<char>) returns (taken: nat, len: nat)
    requires buffer.Length == MAX_NAME_LEN
    modifies buffer
    ensures len < MAX_NAME_LEN && buffer[len] == '\0'
    ensures str.None? ==> taken == len == 0
    ensures str.Some? ==> LongestFit(str.value, taken, MAX_NAME_LEN - 1) && buffer[..len] == Escaped(str.value[..taken])
    ensures str.Some? ==> Unescaped(buffer[..len]) == Some(str.value[..taken])
  {
    var i, j := 0, 0;
    if str.Some? {
      var s := str.value;
      while i < |s| && j < MAX_NAME_LEN - 1
        invariant i <= |s| && j < MAX_NAME_LEN && buffer[..j] == Escaped(s[..i])
      {
        EscapedStep(s, i);
        ghost var was := buffer[..j];
        if s[i] == '\\' {
          if j < MAX_NAME_LEN - 2 {
            buffer[j] := '\\';
            buffer[j + 1] := '\\';
            assert buffer[..j + 2] == was + "\\\\";
            j := j + 2;
          } else {
            break;
          }
        } else {
          buffer[j] := s[i];
          assert buffer[..j + 1] == was + [s[i]];
          j := j + 1;
        }
        i := i + 1;
      }
      forall m | i < m <= |s| ensures |Escaped(s[..m])| > MAX_NAME_LEN - 1 {
        EscapedStep(s, i);
        EscapedGrows(s, i + 1, m);
      }
      RoundTrip(s[..i]);
    }
    buffer[j] := '\0';
    taken, len := i, j;
  }
}
