/**
 * The few `java.lang.String` operations the code generator relies on, over
 * `seq<char>`: prefix and substring tests, splitting and joining on one
 * separator, and replacing one character by another.
 */
module Strings {

  predicate StartsWith(s: string, prefix: string)
  {
    |prefix| <= |s| && s[..|prefix|] == prefix
  }

  /** `s.contains(t)`: `t` occurs in `s` at some position. */
  predicate Contains(s: string, t: string)
  {
    exists i | 0 <= i <= |s| :: StartsWith(s[i..], t)
  }

  /** `s.replace(from, to)` for single characters. */
  function ReplaceChar(s: string, from: char, to: char): (r: string)
    ensures |r| == |s|
    ensures forall i | 0 <= i < |s| :: r[i] == (if s[i] == from then to else s[i])
  {
    if s == [] then [] else [if s[0] == from then to else s[0]] + ReplaceChar(s[1..], from, to)
  }

  /** The parts joined with `sep` between neighbours. */
  function Join(parts: seq<string>, sep: char): string
  {
    if |parts| == 0 then ""
    else if |parts| == 1 then parts[0]
    else parts[0] + [sep] + Join(parts[1..], sep)
  }

  /** The first position of `c` in `s`. */
  function IndexOf(s: string, c: char): (r: nat)
    requires c in s
    ensures r < |s| && s[r] == c && c !in s[..r]
  {
    if s[0] == c then 0 else 1 + IndexOf(s[1..], c)
  }

  /** The last position of `c` in `s`. */
  function LastIndexOf(s: string, c: char): (r: nat)
    requires c in s
    ensures r < |s| && s[r] == c && c !in s[r + 1..]
  {
    if s[|s| - 1] == c then |s| - 1 else LastIndexOf(s[..|s| - 1], c)
  }

  /** `s.split("\\.", -1)` for one separator: every part, empty ones included. */
  function Split(s: string, sep: char): (r: seq<string>)
    ensures |r| >= 1
    ensures forall i | 0 <= i < |r| :: sep !in r[i]
    decreases |s|
  {
    if sep in s then
      var i := IndexOf(s, sep);
      [s[..i]] + Split(s[i + 1..], sep)
    else [s]
  }

  /** Joining what was split gives the string back. */
  lemma {:induction false} JoinSplit(s: string, sep: char)
    ensures Join(Split(s, sep), sep) == s
    decreases |s|
  {
    if sep in s {
      var i := IndexOf(s, sep);
      var rest := Split(s[i + 1..], sep);
      JoinSplit(s[i + 1..], sep);
      var parts := [s[..i]] + rest;
      assert parts[0] == s[..i] && parts[1..] == rest;
      assert Join(parts, sep) == s[..i] + [sep] + Join(rest, sep);
      assert s == s[..i] + [sep] + s[i + 1..];
    }
  }

  /** Joining is associative over a cut of the parts. */
  lemma {:induction false} JoinAt(parts: seq<string>, k: nat, sep: char)
    requires 0 < k < |parts|
    ensures Join(parts, sep) == Join(parts[..k], sep) + [sep] + Join(parts[k..], sep)
  {
    if k > 1 {
      JoinAt(parts[1..], k - 1, sep);
      assert parts[1..][..k - 1] == parts[1..k];
      assert parts[1..][k - 1..] == parts[k..];
      assert parts[..k][1..] == parts[1..k];
    } else {
      assert parts[..1] == [parts[0]];
      assert parts[1..] == parts[k..];
    }
  }
}
