/** Java string operations that the browser core relies on, written out with
    their Java semantics (java.lang.String, Integer, Math).  A Dafny `char` is a
    Unicode scalar value; where Java counts UTF-16 code units the difference is
    stated at the definition. */
module Strings {
  import opened Wrappers

  /** `s.startsWith(t)` */
  predicate StartsWith(s: string, t: string) {
    |t| <= |s| && s[..|t|] == t
  }

  /** A string that starts with `t` is `t` followed by the rest. */
  lemma StartsWithSplit(s: string, t: string)
    requires StartsWith(s, t)
    ensures s == t + s[|t|..]
  {
    assert s == s[..|t|] + s[|t|..];
  }

  /** `s.endsWith(t)` */
  predicate EndsWith(s: string, t: string) {
    |t| <= |s| && s[|s| - |t|..] == t
  }

  /** `t` occurs in `s` starting at offset `i`. */
  predicate OccursAt(s: string, t: string, i: int) {
    0 <= i && i + |t| <= |s| && s[i..i + |t|] == t
  }

  /** `s.contains(t)` */
  predicate Contains(s: string, t: string) {
    exists i | 0 <= i <= |s| - |t| :: OccursAt(s, t, i)
  }

  lemma ContainsInfix(pre: string, t: string, post: string)
    ensures Contains(pre + t + post, t)
  {
    var s := pre + t + post;
    assert s[|pre|..|pre| + |t|] == t;
    assert OccursAt(s, t, |pre|);
  }

  /** Containment is kept when text is added on both sides. */
  lemma ContainsWiden(pre: string, x: string, post: string, t: string)
    requires Contains(x, t)
    ensures Contains(pre + x + post, t)
  {
    var i :| 0 <= i <= |x| - |t| && OccursAt(x, t, i);
    var s := pre + x + post;
    assert s[|pre| + i..|pre| + i + |t|] == x[i..i + |t|];
    assert OccursAt(s, t, |pre| + i);
  }

  lemma ContainsAppend(x: string, y: string, t: string)
    requires Contains(x, t)
    ensures Contains(x + y, t)
  {
    var i :| 0 <= i <= |x| - |t| && OccursAt(x, t, i);
    assert (x + y)[i..i + |t|] == x[i..i + |t|];
    assert OccursAt(x + y, t, i);
  }

  lemma ContainsPrepend(x: string, y: string, t: string)
    requires Contains(y, t)
    ensures Contains(x + y, t)
  {
    var i :| 0 <= i <= |y| - |t| && OccursAt(y, t, i);
    assert (x + y)[|x| + i..|x| + i + |t|] == y[i..i + |t|];
    assert OccursAt(x + y, t, |x| + i);
  }

  lemma ContainsStart(t: string, y: string)
    ensures Contains(t + y, t)
  {
    assert (t + y)[0..|t|] == t;
    assert OccursAt(t + y, t, 0);
  }

  lemma ContainsEnd(x: string, t: string)
    ensures Contains(x + t, t)
  {
    assert (x + t)[|x|..|x| + |t|] == t;
    assert OccursAt(x + t, t, |x|);
  }

  /** The first offset at or after `k` where `t` occurs in `s`, or -1. */
  function IndexFrom(s: string, t: string, k: nat): (r: int)
    ensures r == -1 || (k <= r && OccursAt(s, t, r))
    ensures r == -1 ==> forall j :: k <= j <= |s| - |t| ==> !OccursAt(s, t, j)
    ensures r >= 0 ==> forall j :: k <= j < r ==> !OccursAt(s, t, j)
    decreases |s| - k
  {
    if k + |t| > |s| then -1
    else if s[k..k + |t|] == t then k
    else IndexFrom(s, t, k + 1)
  }

  /** `s.indexOf(t)`: the first occurrence of `t`, or -1 when there is none. */
  function IndexOf(s: string, t: string): (r: int)
    ensures r == -1 <==> !Contains(s, t)
    ensures r >= 0 ==> OccursAt(s, t, r) && forall j :: 0 <= j < r ==> !OccursAt(s, t, j)
  {
    IndexFrom(s, t, 0)
  }

  /** `s.indexOf(c)` for a single character. */
  function IndexOfChar(s: string, c: char): (r: int)
    ensures -1 <= r
    ensures r == -1 <==> c !in s
    ensures r >= 0 ==> r < |s| && s[r] == c && c !in s[..r]
    ensures r >= 0 ==> forall j :: 0 <= j < r ==> s[j] != c
  {
    if |s| == 0 then -1
    else if s[0] == c then 0
    else
      var r := IndexOfChar(s[1..], c);
      if r < 0 then -1
      else
        assert s[..r + 1] == [s[0]] + s[1..][..r];
        r + 1
  }

  /** `s.lastIndexOf(c)`: the last occurrence of `c`, or -1. */
  function LastIndexOfChar(s: string, c: char): (r: int)
    ensures -1 <= r
    ensures r == -1 <==> c !in s
    ensures r >= 0 ==> r < |s| && s[r] == c && c !in s[r + 1..]
  {
    if |s| == 0 then -1
    else if s[|s| - 1] == c then |s| - 1
    else
      var init := s[..|s| - 1];
      var r := LastIndexOfChar(init, c);
      assert s == init + [s[|s| - 1]];
      r
  }

  /** The first `c` is the one with no `c` before it. */
  lemma IndexOfCharAt(pre: string, c: char, post: string)
    requires c !in pre
    ensures IndexOfChar(pre + [c] + post, c) == |pre|
  {
    var s := pre + [c] + post;
    assert s[|pre|] == c;
    assert s[..|pre|] == pre;
  }

  /** The last `c` is the one with no `c` after it. */
  lemma LastIndexOfCharAt(pre: string, c: char, post: string)
    requires c !in post
    ensures LastIndexOfChar(pre + [c] + post, c) == |pre|
  {
    var s := pre + [c] + post;
    assert s[|pre|] == c;
  }

  /** `s.replace(target, replacement)`: every occurrence of `target`, scanned
      from the left without overlap, becomes `replacement`.  An empty target
      puts the replacement before every character and at the end. */
  function ReplaceAll(s: string, target: string, replacement: string): string
    decreases |s|
  {
    if |target| == 0 then
      if |s| == 0 then replacement else replacement + [s[0]] + ReplaceAll(s[1..], target, replacement)
    else if |s| == 0 then ""
    else if StartsWith(s, target) then replacement + ReplaceAll(s[|target|..], target, replacement)
    else [s[0]] + ReplaceAll(s[1..], target, replacement)
  }

  /** `s.replace(a, b)` for single characters: every `a` becomes `b`. */
  function ReplaceChar(s: string, a: char, b: char): (r: string)
    ensures |r| == |s|
    ensures forall i :: 0 <= i < |s| ==> r[i] == (if s[i] == a then b else s[i])
  {
    seq(|s|, i requires 0 <= i < |s| => if s[i] == a then b else s[i])
  }

  lemma ReplaceCharRemoves(s: string, a: char, b: char)
    requires a != b
    ensures a !in ReplaceChar(s, a, b)
  {
  }

  /** Java's notion of white space for `trim`: every character up to U+0020. */
  predicate IsTrimmed(c: char) {
    c <= ' '
  }

  function TrimStart(s: string): (r: string)
    ensures |r| <= |s| && r == s[|s| - |r|..]
    ensures forall i :: 0 <= i < |s| - |r| ==> IsTrimmed(s[i])
    ensures |r| > 0 ==> !IsTrimmed(r[0])
  {
    if |s| > 0 && IsTrimmed(s[0]) then TrimStart(s[1..]) else s
  }

  function TrimEnd(s: string): (r: string)
    ensures |r| <= |s| && r == s[..|r|]
    ensures forall i :: |r| <= i < |s| ==> IsTrimmed(s[i])
    ensures |r| > 0 ==> !IsTrimmed(r[|r| - 1])
  {
    if |s| > 0 && IsTrimmed(s[|s| - 1]) then TrimEnd(s[..|s| - 1]) else s
  }

  /** `s.trim()` */
  function Trim(s: string): string {
    TrimEnd(TrimStart(s))
  }

  /** `s.trim().isEmpty()` */
  predicate IsBlank(s: string) {
    Trim(s) == ""
  }

  lemma {:induction false} BlankIffAllTrimmed(s: string)
    ensures IsBlank(s) <==> forall i :: 0 <= i < |s| ==> IsTrimmed(s[i])
  {
    var t := TrimStart(s);
    if IsBlank(s) {
      assert |t| == 0;
    }
  }

  /** Trimming a string that does not start or end in white space changes nothing. */
  lemma TrimUntrimmed(s: string)
    requires |s| > 0 && !IsTrimmed(s[0]) && !IsTrimmed(s[|s| - 1])
    ensures Trim(s) == s
  {
  }

  /** The pieces of `s` between occurrences of `d`, empty ones included. */
  function SplitPieces(s: string, d: char): (r: seq<string>)
    ensures |r| >= 1
    ensures forall k :: 0 <= k < |r| ==> d !in r[k]
    decreases |s|
  {
    var i := IndexOfChar(s, d);
    if i < 0 then [s] else [s[..i]] + SplitPieces(s[i + 1..], d)
  }

  function DropTrailingEmpty(ps: seq<string>): (r: seq<string>)
    ensures |r| <= |ps| && r == ps[..|r|]
    ensures |r| > 0 ==> r[|r| - 1] != ""
    ensures forall k :: |r| <= k < |ps| ==> ps[k] == ""
  {
    if |ps| > 0 && ps[|ps| - 1] == "" then DropTrailingEmpty(ps[..|ps| - 1]) else ps
  }

  /** `s.split(d)` for a one-character, non-special delimiter: the pieces
      between delimiters with the trailing empty ones removed; a string with no
      delimiter at all splits into itself (so `"".split(d)` is `[""]`). */
  function JavaSplit(s: string, d: char): (r: seq<string>)
    ensures forall k :: 0 <= k < |r| ==> d !in r[k]
  {
    if d !in s then [s] else DropTrailingEmpty(SplitPieces(s, d))
  }

  /** `s.split(d)[0]`; None stands for the index exception on an empty array. */
  function SplitFirst(s: string, d: char): Option<string> {
    var parts := JavaSplit(s, d);
    if |parts| == 0 then None else Some(parts[0])
  }

  /** `parts[parts.length - 1]` of `s.split(d)`; None for the index exception. */
  function SplitLast(s: string, d: char): Option<string> {
    var parts := JavaSplit(s, d);
    if |parts| == 0 then None else Some(parts[|parts| - 1])
  }

  lemma {:induction false} SplitPiecesLast(pre: string, d: char, last: string)
    requires d !in last
    ensures var ps := SplitPieces(pre + [d] + last, d); ps[|ps| - 1] == last
    decreases |pre|
  {
    var s := pre + [d] + last;
    var i := IndexOfChar(s, d);
    if i == |pre| {
      assert s[i + 1..] == last;
    } else {
      assert s[|pre|] == d;
      assert i < |pre|;
      assert s[i + 1..] == pre[i + 1..] + [d] + last;
      SplitPiecesLast(pre[i + 1..], d, last);
    }
  }

  /** Cutting at the first delimiter: a piece free of it comes off whole. */
  lemma SplitPiecesCons(piece: string, rest: string, d: char)
    requires d !in piece
    ensures SplitPieces(piece + [d] + rest, d) == [piece] + SplitPieces(rest, d)
  {
    var s := piece + [d] + rest;
    assert s[|piece|] == d;
    assert s[..|piece|] == piece;
    assert s[|piece| + 1..] == rest;
    assert IndexOfChar(s, d) == |piece| by {
      assert forall j :: 0 <= j < |piece| ==> s[j] == piece[j];
    }
  }

  /** The first element of a split is the text before the first delimiter. */
  lemma SplitFirstIsPrefix(s: string, d: char)
    requires d in s && s[0] != d
    ensures SplitFirst(s, d) == Some(s[..IndexOfChar(s, d)])
  {
    var ps := SplitPieces(s, d);
    assert ps[0] == s[..IndexOfChar(s, d)];
    assert ps[0] != "";
    var r := DropTrailingEmpty(ps);
    assert |r| > 0;
  }

  /** The last element of a split is the text after the last delimiter when that is not empty. */
  lemma SplitLastIsSuffix(pre: string, d: char, last: string)
    requires d !in last && last != ""
    ensures SplitLast(pre + [d] + last, d) == Some(last)
  {
    var s := pre + [d] + last;
    assert s[|pre|] == d;
    SplitPiecesLast(pre, d, last);
  }

  /** `String.join(sep, parts)` */
  function Join(parts: seq<string>, sep: string): string {
    if |parts| == 0 then ""
    else if |parts| == 1 then parts[0]
    else parts[0] + sep + Join(parts[1..], sep)
  }

  function DigitChar(n: nat): (c: char)
    requires n < 10
    ensures '0' <= c <= '9'
  {
    ['0', '1', '2', '3', '4', '5', '6', '7', '8', '9'][n]
  }

  /** Decimal digits of a natural number, without leading zeros. */
  function NatToString(n: nat): (r: string)
    ensures |r| >= 1
    ensures forall i :: 0 <= i < |r| ==> '0' <= r[i] <= '9'
  {
    if n < 10 then [DigitChar(n)] else NatToString(n / 10) + [DigitChar(n % 10)]
  }

  /** `Integer.toString(n)` */
  function IntToString(n: int): (r: string)
    ensures forall i :: 0 <= i < |r| ==> ('0' <= r[i] <= '9' || r[i] == '-')
  {
    if n < 0 then "-" + NatToString(-n) else NatToString(n)
  }

  function Pow10(k: nat): nat {
    if k == 0 then 1 else 10 * Pow10(k - 1)
  }

  /** A number below 10^k has at most k digits. */
  lemma {:induction false} NatToStringLength(n: nat, k: nat)
    requires 1 <= k && n < Pow10(k)
    ensures |NatToString(n)| <= k
  {
    if n >= 10 {
      assert Pow10(1) == 10;
      NatToStringLength(n / 10, k - 1);
    }
  }

  /** A Java `int` prints in at most eleven characters. */
  lemma IntToStringShort(n: int)
    requires IsInt32(n)
    ensures 1 <= |IntToString(n)| <= 11
  {
    assert Pow10(10) == 10_000_000_000;
    if n < 0 {
      NatToStringLength(-n, 10);
    } else {
      NatToStringLength(n, 10);
    }
  }

  const TWO_TO_32: int := 0x1_0000_0000
  const INT_MIN: int := -0x8000_0000

  /** A Java `int` is a 32-bit two's complement number. */
  predicate IsInt32(x: int) {
    INT_MIN <= x < 0x8000_0000
  }

  /** Truncation of an unbounded integer to a Java `int`. */
  function WrapInt32(x: int): (r: int)
    ensures IsInt32(r)
    ensures (r - x) % TWO_TO_32 == 0
  {
    var m := x % TWO_TO_32;
    if m >= 0x8000_0000 then m - TWO_TO_32 else m
  }

  /** The UTF-16 code units Java stores for one character. */
  function Utf16(c: char): (r: seq<int>)
    ensures 1 <= |r| <= 2
    ensures forall k :: 0 <= k < |r| ==> 0 <= r[k] < 0x10000
  {
    var v := c as int;
    if v < 0x10000 then [v]
    else [0xD800 + (v - 0x10000) / 0x400, 0xDC00 + (v - 0x10000) % 0x400]
  }

  function Utf16Units(s: string): seq<int> {
    if |s| == 0 then [] else Utf16Units(s[..|s| - 1]) + Utf16(s[|s| - 1])
  }

  function HashUnits(units: seq<int>): (h: int)
    ensures IsInt32(h)
  {
    if |units| == 0 then 0
    else WrapInt32(31 * HashUnits(units[..|units| - 1]) + units[|units| - 1])
  }

  /** `s.hashCode()`: h = 31 * h + unit over the UTF-16 units, in `int` arithmetic. */
  function JavaHashCode(s: string): (h: int)
    ensures IsInt32(h)
  {
    HashUnits(Utf16Units(s))
  }

  /** `Math.abs(x)` on an `int`: the absolute value, except that the most
      negative `int` is its own negation and stays negative. */
  function JavaAbs(x: int): (r: int)
    requires IsInt32(x)
    ensures IsInt32(r)
    ensures x != INT_MIN ==> r >= 0 && (r == x || r == -x)
    ensures x == INT_MIN ==> r == x
  {
    if x == INT_MIN then x else if x < 0 then -x else x
  }
}
