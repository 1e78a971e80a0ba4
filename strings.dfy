/** The handful of Python `str` operations the modelled code relies on:
    substring search, `split`, `join`, slicing (which clamps out-of-range bounds),
    `count` and decimal rendering of integers. */
module Strings {
  import opened Wrappers

  /** `sep` occurs in `s` at position `i`. */
  predicate At(s: string, sep: string, i: nat) {
    i + |sep| <= |s| && s[i..i + |sep|] == sep
  }

  /** The first position at or after `i` where `sep` occurs (Python `s.find(sep, i)`). */
  function Find(s: string, sep: string, i: nat): (r: Option<nat>)
    requires i <= |s|
    ensures r.Some? ==> i <= r.value && r.value + |sep| <= |s|
    decreases |s| - i
  {
    if i + |sep| > |s| then None
    else if s[i..i + |sep|] == sep then Some(i)
    else Find(s, sep, i + 1)
  }

  /** `Find` gives the first occurrence at or after `i`, or None when there is none. */
  lemma {:induction false} FindFirst(s: string, sep: string, i: nat)
    requires i <= |s|
    ensures var r := Find(s, sep, i);
      && (r.Some? ==> At(s, sep, r.value))
      && (r.Some? ==> forall j | i <= j < r.value :: !At(s, sep, j))
      && (r.None? ==> forall j | i <= j :: !At(s, sep, j))
    decreases |s| - i
  {
    if i + |sep| <= |s| && s[i..i + |sep|] != sep {
      FindFirst(s, sep, i + 1);
    }
  }

  /** Python `sub in s`. */
  predicate Contains(s: string, sub: string) {
    Find(s, sub, 0).Some?
  }

  /** Python `s.split(sep)` for a non-empty separator: the pieces between
      non-overlapping occurrences, scanned from the left. */
  function SplitOn(s: string, sep: string): (r: seq<string>)
    requires |sep| > 0
    ensures |r| >= 1
    decreases |s|
  {
    match Find(s, sep, 0)
    case None => [s]
    case Some(j) => [s[..j]] + SplitOn(s[j + |sep|..], sep)
  }

  /** Python `sep.join(parts)`. */
  function Join(parts: seq<string>, sep: string): string {
    if |parts| == 0 then ""
    else if |parts| == 1 then parts[0]
    else parts[0] + sep + Join(parts[1..], sep)
  }

  /** Joining the pieces of a split with the same separator gives back the string. */
  lemma {:induction false} JoinSplitOn(s: string, sep: string)
    requires |sep| > 0
    ensures Join(SplitOn(s, sep), sep) == s
    decreases |s|
  {
    var f := Find(s, sep, 0);
    if f.Some? {
      var j := f.value;
      var rest := s[j + |sep|..];
      JoinSplitOn(rest, sep);
      SplitOnStep(s, sep, j);
      JoinCons(s[..j], SplitOn(rest, sep), sep);
    }
  }

  /** One step of a split: the piece before the first separator, then the split of the rest. */
  lemma SplitOnStep(s: string, sep: string, j: nat)
    requires |sep| > 0 && Find(s, sep, 0) == Some(j)
    ensures SplitOn(s, sep) == [s[..j]] + SplitOn(s[j + |sep|..], sep)
    ensures s == s[..j] + sep + s[j + |sep|..]
  {
    FindFirst(s, sep, 0);
    assert s[j..j + |sep|] == sep;
    assert s == s[..j] + s[j..j + |sep|] + s[j + |sep|..];
  }

  lemma JoinCons(head: string, tail: seq<string>, sep: string)
    requires |tail| >= 1
    ensures Join([head] + tail, sep) == head + sep + Join(tail, sep)
  {
    assert ([head] + tail)[1..] == tail;
  }

  /** No piece of a split contains the separator. */
  lemma {:induction false} SplitOnPiecesFree(s: string, sep: string)
    requires |sep| > 0
    ensures forall k | 0 <= k < |SplitOn(s, sep)| :: !Contains(SplitOn(s, sep)[k], sep)
    decreases |s|
  {
    match Find(s, sep, 0)
    case None =>
      assert SplitOn(s, sep) == [s];
    case Some(j) =>
      var rest := s[j + |sep|..];
      SplitOnPiecesFree(rest, sep);
      var head := s[..j];
      if Contains(head, sep) {
        FindFirst(s, sep, 0);
        FindFirst(head, sep, 0);
        var p := Find(head, sep, 0).value;
        assert head[p..p + |sep|] == s[p..p + |sep|];
        assert At(s, sep, p);
        assert false;
      }
      assert SplitOn(s, sep) == [head] + SplitOn(rest, sep);
  }

  /** The lines of a text: Python `s.split("\n")`. */
  function Lines(s: string): (r: seq<string>)
    ensures |r| >= 1
  {
    SplitOn(s, "\n")
  }

  /** Python `s.count(c)` for one character. */
  function CountChar(s: string, c: char): nat {
    if |s| == 0 then 0 else CountChar(s[1..], c) + (if s[0] == c then 1 else 0)
  }

  lemma CountCharPrefix(s: string, c: char, j: nat)
    requires j <= |s|
    ensures CountChar(s, c) == CountChar(s[..j], c) + CountChar(s[j..], c)
  {
    if j > 0 {
      CountCharPrefix(s[1..], c, j - 1);
      assert s[1..][..j - 1] == s[..j][1..];
      assert s[1..][j - 1..] == s[j..];
    }
  }

  /** A text has one more line than it has newline characters. */
  lemma {:induction false} LinesCount(s: string, c: char)
    ensures |SplitOn(s, [c])| == CountChar(s, c) + 1
    decreases |s|
  {
    match Find(s, [c], 0)
    case None =>
      FindFirst(s, [c], 0);
      if CountChar(s, c) != 0 {
        var k := FirstChar(s, c);
        assert s[k..k + 1] == [c];
        assert At(s, [c], k);
        assert false;
      }
    case Some(j) =>
      FindFirst(s, [c], 0);
      var rest := s[j + 1..];
      LinesCount(rest, c);
      assert SplitOn(s, [c]) == [s[..j]] + SplitOn(rest, [c]);
      CountCharPrefix(s, c, j + 1);
      CountCharPrefix(s[..j + 1], c, j);
      assert s[..j + 1][..j] == s[..j];
      assert s[j..j + 1] == [c];
      assert s[..j + 1][j..] == [c];
      assert CountChar([c], c) == 1;
      if CountChar(s[..j], c) != 0 {
        var k := FirstChar(s[..j], c);
        assert s[k..k + 1] == [c];
        assert At(s, [c], k);
        assert false;
      }
  }

  /** The position of some occurrence of `c` in a string that counts at least one. */
  lemma FirstChar(s: string, c: char) returns (k: nat)
    requires CountChar(s, c) != 0
    ensures k < |s| && s[k] == c
  {
    if s[0] == c {
      k := 0;
    } else {
      k := FirstChar(s[1..], c);
      k := k + 1;
    }
  }

  /** Python slicing `xs[lo:hi]` with non-negative bounds, which clamps both to the length. */
  function Slice<T>(xs: seq<T>, lo: nat, hi: nat): (r: seq<T>)
    ensures lo <= hi <= |xs| ==> r == xs[lo..hi]
    ensures |xs| <= lo || hi <= lo ==> r == []
  {
    var a := if lo < |xs| then lo else |xs|;
    var b := if hi < |xs| then hi else |xs|;
    if b <= a then [] else xs[a..b]
  }

  predicate IsDigit(c: char) {
    '0' <= c <= '9'
  }

  /** A non-empty run of ASCII digits. */
  predicate IsDigits(s: string) {
    |s| > 0 && forall k | 0 <= k < |s| :: IsDigit(s[k])
  }

  /** The value of a digit string (Python `int(s)` on such a string). */
  function DigitsValue(s: string): nat
    requires forall k | 0 <= k < |s| :: IsDigit(s[k])
  {
    if |s| == 0 then 0
    else
      var d := s[|s| - 1];
      assert IsDigit(d);
      DigitsValue(s[..|s| - 1]) * 10 + (d as int - '0' as int)
  }

  function DigitChar(d: nat): (c: char)
    requires d < 10
    ensures IsDigit(c) && c as int - '0' as int == d
  {
    "0123456789"[d]
  }

  /** Python `str(n)` for a natural number. */
  function NatToString(n: nat): (r: string)
    decreases n
  {
    if n < 10 then [DigitChar(n)] else NatToString(n / 10) + [DigitChar(n % 10)]
  }

  /** Rendering a number in decimal and reading it back gives the number. */
  lemma {:induction false} NatToStringRoundTrip(n: nat)
    ensures IsDigits(NatToString(n))
    ensures DigitsValue(NatToString(n)) == n
    decreases n
  {
    if n >= 10 {
      NatToStringRoundTrip(n / 10);
      var s := NatToString(n);
      assert s[..|s| - 1] == NatToString(n / 10);
    } else {
      var s := NatToString(n);
      assert s[..0] == [];
    }
  }

  /** Python `str(i)` for an integer. */
  function IntToString(i: int): string {
    if i < 0 then "-" + NatToString(-i) else NatToString(i)
  }

  function Spaces(n: nat): (r: string)
    ensures |r| == n && forall k | 0 <= k < n :: r[k] == ' '
  {
    if n == 0 then "" else " " + Spaces(n - 1)
  }

  /** Python `f"{s:>w}"`: pad on the left with spaces to width `w`; longer strings are kept whole. */
  function RightAlign(s: string, w: nat): (r: string)
    ensures |r| == if |s| < w then w else |s|
    ensures r[|r| - |s|..] == s
    ensures forall k | 0 <= k < |r| - |s| :: r[k] == ' '
  {
    if |s| < w then Spaces(w - |s|) + s else s
  }

  /** An ASCII upper-case letter. Python's `c.isupper()` also holds for non-ASCII upper-case
      letters, which this predicate does not cover. */
  predicate IsUpper(c: char) {
    'A' <= c <= 'Z'
  }

  /** Where a character occurs, `Find` for that one-character string stops there or earlier. */
  lemma FindCharAt(s: string, c: char, i: nat)
    requires i < |s| && s[i] == c
    ensures Find(s, [c], 0).Some? && Find(s, [c], 0).value <= i
  {
    assert s[i..i + 1] == [c];
    assert At(s, [c], i);
    FindFirst(s, [c], 0);
  }

  /** In `a + [c] + b` with no `c` in `a`, the first `c` is the one after `a`. */
  lemma FindCharAfter(a: string, c: char, b: string)
    requires c !in a
    ensures Find(a + [c] + b, [c], 0) == Some(|a|)
  {
    var s := a + [c] + b;
    FindCharAt(s, c, |a|);
    FindFirst(s, [c], 0);
  }

  /** A string without `c` has no occurrence of `[c]`. */
  lemma FindCharNone(s: string, c: char)
    requires c !in s
    ensures Find(s, [c], 0) == None
  {
    forall j: nat ensures !At(s, [c], j) {
      if j < |s| {
        assert s[j..j + 1][0] == s[j];
      }
    }
    FindNone(s, [c]);
  }

  /** With no occurrence at all, `Find` finds nothing. */
  lemma FindNone(s: string, sep: string)
    requires forall j: nat :: !At(s, sep, j)
    ensures Find(s, sep, 0) == None
  {
    FindFirst(s, sep, 0);
  }

  /** Splitting a join on a one-character separator that no piece contains gives back the pieces. */
  lemma {:induction false} SplitOnJoin(parts: seq<string>, c: char)
    requires |parts| >= 1
    requires forall k | 0 <= k < |parts| :: c !in parts[k]
    ensures SplitOn(Join(parts, [c]), [c]) == parts
    decreases |parts|
  {
    if |parts| == 1 {
      FindCharNone(parts[0], c);
    } else {
      var rest := Join(parts[1..], [c]);
      var s := parts[0] + [c] + rest;
      assert Join(parts, [c]) == s;
      FindCharAfter(parts[0], c, rest);
      SplitOnStep(s, [c], |parts[0]|);
      assert s[..|parts[0]|] == parts[0];
      assert s[|parts[0]| + 1..] == rest;
      SplitOnJoin(parts[1..], c);
      assert parts == [parts[0]] + parts[1..];
    }
  }

  /** Every character of a join comes from a piece or is the separator. */
  lemma {:induction false} JoinChars(parts: seq<string>, c: char, x: char)
    requires forall k | 0 <= k < |parts| :: x !in parts[k]
    requires x != c
    ensures x !in Join(parts, [c])
    decreases |parts|
  {
    if |parts| > 1 {
      JoinChars(parts[1..], c, x);
    }
  }

  /** In `a + [c] + b` with no `c` in `b`, the last piece of the split on `c` is `b`. */
  lemma {:induction false} SplitOnLast(a: string, c: char, b: string)
    requires c !in b
    ensures SplitOn(a + [c] + b, [c])[|SplitOn(a + [c] + b, [c])| - 1] == b
    decreases |a|
  {
    var s := a + [c] + b;
    assert s[|a|] == c;
    FindCharAt(s, c, |a|);
    var j := Find(s, [c], 0).value;
    LastPieceStep(s, [c], j);
    if j == |a| {
      assert s[j + 1..] == b;
      FindCharNone(b, c);
    } else {
      var a' := s[j + 1..|a|];
      assert s[j + 1..] == a' + [c] + b;
      SplitOnLast(a', c, b);
    }
  }

  /** The split's last piece is the last piece of the split of what follows the first separator. */
  lemma LastPieceStep(s: string, sep: string, j: nat)
    requires |sep| > 0 && Find(s, sep, 0) == Some(j)
    ensures var parts := SplitOn(s, sep); var tail := SplitOn(s[j + |sep|..], sep);
      parts[|parts| - 1] == tail[|tail| - 1]
  {
    SplitOnStep(s, sep, j);
  }

  /** Python `os.path.join(a, b)`: an absolute `b` replaces `a`; otherwise one '/' is put between
      them unless `a` is empty or already ends with one. */
  function PathJoin(a: string, b: string): string {
    if |b| > 0 && b[0] == '/' then b
    else if a == "" || a[|a| - 1] == '/' then a + b
    else a + "/" + b
  }

  /** A relative `b` ends the joined path, which starts with `a`; an absolute one replaces `a`. */
  lemma PathJoinParts(a: string, b: string)
    ensures |b| > 0 && b[0] == '/' ==> PathJoin(a, b) == b
    ensures (|b| == 0 || b[0] != '/') ==> var r := PathJoin(a, b);
      |r| >= |a| + |b| && r[..|a|] == a && r[|r| - |b|..] == b
  {
  }

  /** `os.path.join` of several components, joined from the left. */
  function PathJoinAll(a: string, parts: seq<string>): string
    decreases |parts|
  {
    if |parts| == 0 then a else PathJoinAll(PathJoin(a, parts[0]), parts[1..])
  }
}
