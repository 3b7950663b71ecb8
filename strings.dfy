/**
 * The .NET string operations the core relies on: `IndexOf`, `Split(' ')`,
 * `new string(c, n)`, the padding of composite format items, `Trim()`,
 * `string.IsNullOrWhiteSpace` and the ordinal case-insensitive comparison.
 */
module Strings {
  import opened Wrappers

  /** `s.IndexOf(c)`: the first position of c, or -1. */
  function IndexOf(s: string, c: char): (r: int)
    ensures -1 <= r < |s|
    ensures r == -1 <==> c !in s
    ensures r >= 0 ==> s[r] == c && c !in s[..r]
  {
    if s == [] then -1
    else if s[0] == c then 0
    else
      var r := IndexOf(s[1..], c);
      assert s[1..][..if r < 0 then 0 else r] == s[1..if r < 0 then 1 else r + 1];
      if r < 0 then -1 else r + 1
  }

  /** `s.Split(c)`: every occurrence of c separates two parts, empty parts included. */
  function Split(s: string, c: char): (parts: seq<string>)
    ensures |parts| >= 1
    decreases |s|
  {
    var i := IndexOf(s, c);
    if i < 0 then [s] else [s[..i]] + Split(s[i + 1..], c)
  }

  /** `string.Join(c, parts)`. */
  function Join(parts: seq<string>, c: char): string
    requires |parts| >= 1
  {
    if |parts| == 1 then parts[0] else parts[0] + [c] + Join(parts[1..], c)
  }

  predicate NoneContains(parts: seq<string>, c: char)
  {
    forall i :: 0 <= i < |parts| ==> c !in parts[i]
  }

  /** Joining the parts of a split gives the string back. */
  lemma {:induction false} JoinSplit(s: string, c: char)
    ensures Join(Split(s, c), c) == s
    decreases |s|
  {
    var i := IndexOf(s, c);
    if i >= 0 {
      var rest := s[i + 1..];
      var parts := Split(s, c);
      assert parts == [s[..i]] + Split(rest, c);
      assert parts[1..] == Split(rest, c);
      JoinSplit(rest, c);
      calc {
        Join(parts, c);
        parts[0] + [c] + Join(parts[1..], c);
        s[..i] + [c] + rest;
        { assert s == s[..i] + [c] + rest; }
        s;
      }
    }
  }

  /** Splitting joined parts that do not contain the separator gives the parts back. */
  lemma {:induction false} SplitJoin(parts: seq<string>, c: char)
    requires |parts| >= 1 && NoneContains(parts, c)
    ensures Split(Join(parts, c), c) == parts
  {
    if |parts| > 1 {
      var s := Join(parts, c);
      var rest := Join(parts[1..], c);
      assert s == parts[0] + [c] + rest;
      assert s[..|parts[0]|] == parts[0];
      assert c !in s[..|parts[0]|];
      assert s[|parts[0]|] == c;
      assert IndexOf(s, c) == |parts[0]|;
      assert s[|parts[0]| + 1..] == rest;
      SplitJoin(parts[1..], c);
    }
  }

  /** `new string(c, n)`. */
  function Repeat(c: char, n: nat): (r: string)
    ensures |r| == n && forall i :: 0 <= i < n ==> r[i] == c
  {
    seq(n, _ => c)
  }

  function Spaces(n: nat): (r: string)
    ensures |r| == n && forall i :: 0 <= i < n ==> r[i] == ' '
  {
    Repeat(' ', n)
  }

  /** The format item `{0,w}`: right-aligned in a field of at least w characters. */
  function PadLeft(s: string, w: nat): (r: string)
    ensures |r| == if |s| < w then w else |s|
    ensures r[|r| - |s|..] == s
    ensures forall i :: 0 <= i < |r| - |s| ==> r[i] == ' '
  {
    if |s| < w then Spaces(w - |s|) + s else s
  }

  /** The format item `{0,-w}`: left-aligned in a field of at least w characters. */
  function PadRight(s: string, w: nat): (r: string)
    ensures |r| == if |s| < w then w else |s|
    ensures r[..|s|] == s
    ensures forall i :: |s| <= i < |r| ==> r[i] == ' '
  {
    if |s| < w then s + Spaces(w - |s|) else s
  }

  /** `char.IsWhiteSpace`: the Unicode separators and the control white space. */
  predicate IsWhiteSpace(c: char)
  {
    || ('\t' <= c <= '\r') || c == ' ' || c == '\U{0085}' || c == '\U{00A0}'
    || c == '\U{1680}' || ('\U{2000}' <= c <= '\U{200A}') || c == '\U{2028}'
    || c == '\U{2029}' || c == '\U{202F}' || c == '\U{205F}' || c == '\U{3000}'
  }

  /** `t` is `s[i..j]`, and only white space lies outside it. */
  ghost predicate TrimmedAt(s: string, t: string, i: int, j: int)
  {
    && 0 <= i <= j <= |s| && t == s[i..j]
    && (forall k :: 0 <= k < i ==> IsWhiteSpace(s[k]))
    && (forall k :: j <= k < |s| ==> IsWhiteSpace(s[k]))
  }

  /** `s.Trim()`: drops white space at both ends, and nothing else. */
  function Trim(s: string): (t: string)
    ensures |t| <= |s|
    ensures t == [] || (!IsWhiteSpace(t[0]) && !IsWhiteSpace(t[|t| - 1]))
    ensures t == [] <==> forall i :: 0 <= i < |s| ==> IsWhiteSpace(s[i])
    ensures exists i, j :: TrimmedAt(s, t, i, j)
    decreases |s|
  {
    if s == [] then
      assert TrimmedAt(s, s, 0, 0);
      s
    else if IsWhiteSpace(s[0]) then
      var t := Trim(s[1..]);
      assert exists i, j :: TrimmedAt(s, t, i, j) by {
        var i, j :| TrimmedAt(s[1..], t, i, j);
        TrimmedAtFront(s, t, i, j);
      }
      t
    else if IsWhiteSpace(s[|s| - 1]) then
      var t := Trim(s[..|s| - 1]);
      assert forall i :: 0 <= i < |s| - 1 ==> s[..|s| - 1][i] == s[i];
      assert exists i, j :: TrimmedAt(s, t, i, j) by {
        var i, j :| TrimmedAt(s[..|s| - 1], t, i, j);
        TrimmedAtBack(s, t, i, j);
      }
      t
    else
      assert TrimmedAt(s, s, 0, |s|);
      s
  }

  lemma TrimmedAtFront(s: string, t: string, i: int, j: int)
    requires s != [] && IsWhiteSpace(s[0]) && TrimmedAt(s[1..], t, i, j)
    ensures TrimmedAt(s, t, i + 1, j + 1)
  {
    assert forall k :: 1 <= k < |s| ==> s[k] == s[1..][k - 1];
  }

  lemma TrimmedAtBack(s: string, t: string, i: int, j: int)
    requires s != [] && IsWhiteSpace(s[|s| - 1]) && TrimmedAt(s[..|s| - 1], t, i, j)
    ensures TrimmedAt(s, t, i, j)
  {
    assert forall k :: 0 <= k < |s| - 1 ==> s[k] == s[..|s| - 1][k];
  }

  /** `string.IsNullOrWhiteSpace(s)`, with null as None. */
  predicate IsNullOrWhiteSpace(s: Option<string>)
  {
    s.None? || forall i :: 0 <= i < |s.value| ==> IsWhiteSpace(s.value[i])
  }

  /** ASCII upper-case letters to lower case; every other character unchanged. */
  function AsciiLower(c: char): char
  {
    if 'A' <= c <= 'Z' then (c as int + 32) as char else c
  }

  /** `a.Equals(b, StringComparison.OrdinalIgnoreCase)` for ASCII text. */
  predicate EqualsIgnoreCase(a: string, b: string)
  {
    |a| == |b| && forall i :: 0 <= i < |a| ==> AsciiLower(a[i]) == AsciiLower(b[i])
  }
}
