/**
 * String helpers shared by the wallet, the translation code and the locale
 * tools: single-character split and join (JavaScript's and Python's
 * `split(c)` with a one-character separator), substring search, ASCII
 * whitespace and lower-casing, and the decimal rendering of a number.
 */
module Text {

  /** Index of the first occurrence of `c` in `s`. */
  function IndexOf(s: string, c: char): (i: nat)
    requires c in s
    ensures i < |s| && s[i] == c && c !in s[..i]
  {
    if s[0] == c then 0 else 1 + IndexOf(s[1..], c)
  }

  /** `s.split(c)` for a one-character separator `c`. */
  function Split(s: string, c: char): (parts: seq<string>)
    ensures |parts| > 0
    decreases |s|
  {
    if c !in s then [s]
    else
      var i := IndexOf(s, c);
      [s[..i]] + Split(s[i + 1..], c)
  }

  /** A split has more than one piece exactly when the separator occurs. */
  lemma SplitMany(s: string, c: char)
    ensures |Split(s, c)| >= 2 <==> c in s
  {
    if c in s {
      var i := IndexOf(s, c);
      assert Split(s, c) == [s[..i]] + Split(s[i + 1..], c);
    }
  }

  /** `c.join(parts)` in Python, `parts.join(c)` in JavaScript. */
  function Join(parts: seq<string>, c: char): string
  {
    if |parts| == 0 then ""
    else if |parts| == 1 then parts[0]
    else parts[0] + [c] + Join(parts[1..], c)
  }

  /** No piece of a split contains the separator. */
  lemma {:induction false} SplitPiecesFree(s: string, c: char)
    ensures forall k :: 0 <= k < |Split(s, c)| ==> c !in Split(s, c)[k]
    decreases |s|
  {
    if c in s {
      var i := IndexOf(s, c);
      SplitPiecesFree(s[i + 1..], c);
    }
  }

  /** Joining the pieces of a split with the same separator gives the string back. */
  lemma {:induction false} JoinSplit(s: string, c: char)
    ensures Join(Split(s, c), c) == s
    decreases |s|
  {
    if c in s {
      var i := IndexOf(s, c);
      var rest := s[i + 1..];
      JoinSplit(rest, c);
      assert Split(s, c) == [s[..i]] + Split(rest, c);
      assert s == s[..i] + [c] + rest;
    }
  }

  /** The first separator after a separator-free prefix is the one right after it. */
  lemma {:induction false} IndexOfAfterFree(a: string, c: char, b: string)
    requires c !in a
    ensures c in a + [c] + b && IndexOf(a + [c] + b, c) == |a|
  {
    var s := a + [c] + b;
    assert s[|a|] == c;
    if |a| > 0 {
      IndexOfAfterFree(a[1..], c, b);
      assert s[1..] == a[1..] + [c] + b;
    }
  }

  /** Splitting a join of separator-free pieces gives the pieces back. */
  lemma {:induction false} SplitJoin(parts: seq<string>, c: char)
    requires |parts| > 0
    requires forall k :: 0 <= k < |parts| ==> c !in parts[k]
    ensures Split(Join(parts, c), c) == parts
  {
    if |parts| > 1 {
      var rest := Join(parts[1..], c);
      SplitJoin(parts[1..], c);
      var s := parts[0] + [c] + rest;
      IndexOfAfterFree(parts[0], c, rest);
      var i := IndexOf(s, c);
      assert s[..i] == parts[0];
      assert s[i + 1..] == rest;
    }
  }

  /** The text before the first `c`, or all of `s` when `c` does not occur: `s.split(c)[0]`. */
  function BeforeFirst(s: string, c: char): (r: string)
    ensures c in s ==> r == s[..IndexOf(s, c)]
    ensures c !in s ==> r == s
    ensures c !in r && r <= s
  {
    Split(s, c)[0]
  }

  /** Python's `t in s` for strings. */
  predicate HasSubstring(s: string, t: string)
  {
    t <= s || (|s| > 0 && HasSubstring(s[1..], t))
  }

  /** The whitespace characters that JavaScript's `trim` and `\s` and Python's `strip` remove (ASCII subset). */
  predicate IsSpace(c: char)
  {
    c == ' ' || c == '\t' || c == '\n' || c == '\r' || c == '\U{B}' || c == '\U{C}'
  }

  predicate AllSpace(u: string)
  {
    forall i :: 0 <= i < |u| ==> IsSpace(u[i])
  }

  /** `s.trim()` / `s.strip()`: drop leading and trailing whitespace. */
  function Trim(s: string): (r: string)
    ensures |r| > 0 ==> !IsSpace(r[0]) && !IsSpace(r[|r| - 1])
    ensures exists i, j :: 0 <= i <= j <= |s| && r == s[i..j] && AllSpace(s[..i]) && AllSpace(s[j..])
    ensures forall i :: 0 <= i < |r| ==> r[i] in s
  {
    TrimIsSlice(s);
    TrimEnd(TrimStart(s))
  }

  /** Trimming keeps a slice of `s` with only whitespace on either side of it. */
  lemma TrimIsSlice(s: string)
    ensures exists i, j :: 0 <= i <= j <= |s| && TrimEnd(TrimStart(s)) == s[i..j] && AllSpace(s[..i]) && AllSpace(s[j..])
    ensures forall i :: 0 <= i < |TrimEnd(TrimStart(s))| ==> TrimEnd(TrimStart(s))[i] in s
  {
    var t := TrimStart(s);
    var i :| 0 <= i <= |s| && t == s[i..] && AllSpace(s[..i]);
    var j := SliceOfTrimEnd(s, i);
    SliceMembers(s, i, j);
  }

  /** TrimEnd of the suffix from `i` is a slice starting at `i`. */
  lemma SliceOfTrimEnd(s: string, i: nat) returns (j: nat)
    requires i <= |s|
    ensures i <= j <= |s| && TrimEnd(s[i..]) == s[i..j] && AllSpace(s[j..])
  {
    var t := s[i..];
    var j' :| 0 <= j' <= |t| && TrimEnd(t) == t[..j'] && AllSpace(t[j'..]);
    j := i + j';
    assert t[..j'] == s[i..j];
    assert t[j'..] == s[j..];
  }

  lemma SliceMembers(s: string, i: nat, j: nat)
    requires i <= j <= |s|
    ensures forall k :: 0 <= k < j - i ==> s[i..j][k] in s
  {
    forall k | 0 <= k < j - i
      ensures s[i..j][k] in s
    {
      assert s[i..j][k] == s[i + k];
    }
  }

  /** Drop leading whitespace. */
  function TrimStart(s: string): (r: string)
    ensures |r| > 0 ==> !IsSpace(r[0])
    ensures exists i :: 0 <= i <= |s| && r == s[i..] && AllSpace(s[..i])
    decreases |s|
  {
    if |s| > 0 && IsSpace(s[0]) then
      var t := s[1..];
      var r := TrimStart(t);
      var i :| 0 <= i <= |t| && r == t[i..] && AllSpace(t[..i]);
      assert r == s[i + 1..];
      assert s[..i + 1] == [s[0]] + t[..i];
      r
    else
      assert s == s[0..];
      s
  }

  /** Drop trailing whitespace. */
  function TrimEnd(s: string): (r: string)
    ensures |r| > 0 ==> !IsSpace(r[|r| - 1])
    ensures exists j :: 0 <= j <= |s| && r == s[..j] && AllSpace(s[j..])
    decreases |s|
  {
    if |s| > 0 && IsSpace(s[|s| - 1]) then
      var t := s[..|s| - 1];
      var r := TrimEnd(t);
      var j :| 0 <= j <= |t| && r == t[..j] && AllSpace(t[j..]);
      assert r == s[..j];
      assert s[j..] == t[j..] + [s[|s| - 1]];
      r
    else
      assert s == s[..|s|];
      s
  }

  /** ASCII lower-casing, as `toLowerCase` does for the characters of a seed phrase. */
  function LowerChar(c: char): char
  {
    if 'A' <= c <= 'Z' then (c as int - 'A' as int + 'a' as int) as char else c
  }

  function Lower(s: string): (r: string)
    ensures |r| == |s|
    ensures forall i :: 0 <= i < |s| ==> r[i] == LowerChar(s[i])
  {
    seq(|s|, i requires 0 <= i < |s| => LowerChar(s[i]))
  }

  function DigitChar(d: nat): char
    requires d < 10
  {
    ('0' as int + d) as char
  }

  /** `n.toString()` for a non-negative integer. */
  function NatToString(n: nat): (s: string)
    ensures |s| > 0
    ensures forall i :: 0 <= i < |s| ==> '0' <= s[i] <= '9'
  {
    if n < 10 then [DigitChar(n)] else NatToString(n / 10) + [DigitChar(n % 10)]
  }

  /** Distinct numbers render differently. */
  lemma {:induction false} NatToStringInjective(n: nat, m: nat)
    requires NatToString(n) == NatToString(m)
    ensures n == m
  {
    if n >= 10 && m >= 10 {
      var sn, sm := NatToString(n), NatToString(m);
      assert sn[|sn| - 1] == sm[|sm| - 1];
      assert n % 10 == m % 10;
      assert sn[..|sn| - 1] == NatToString(n / 10);
      assert sm[..|sm| - 1] == NatToString(m / 10);
      NatToStringInjective(n / 10, m / 10);
    }
  }
}
