/**
 * The JavaScript string operations the BookWorm client relies on, stated on `seq<char>`:
 * `indexOf`, `split` and `join` with a one-character separator, `substring`,
 * an ASCII `toUpperCase`, and `Number.prototype.toString` on naturals.
 */
module Strings {

  /** `s.indexOf(c)`, with `|s|` standing for JavaScript's "not found" (-1). */
  function IndexOf(s: string, c: char): (i: nat)
    ensures i <= |s|
    ensures i < |s| ==> s[i] == c
    ensures forall j :: 0 <= j < i ==> s[j] != c
  {
    if |s| == 0 then 0
    else if s[0] == c then 0
    else 1 + IndexOf(s[1..], c)
  }

  /**
   * `s.split(sep)` for a one-character separator: every occurrence of `sep` cuts,
   * and empty parts (from leading, trailing or doubled separators) are kept.
   */
  function Split(s: string, sep: char): (parts: seq<string>)
    ensures |parts| >= 1
    ensures parts[0] == s[..IndexOf(s, sep)]
    ensures |parts| >= 2 <==> sep in s
    decreases |s|
  {
    var i := IndexOf(s, sep);
    if i == |s| then [s] else [s[..i]] + Split(s[i + 1..], sep)
  }

  /**
   * `parts.join(sep)`: the result starts with the first part, and for separator-free
   * parts it holds a separator exactly when there are at least two parts.
   */
  function Join(parts: seq<string>, sep: char): (r: string)
    ensures |parts| >= 1 ==> |parts[0]| <= |r| && r[..|parts[0]|] == parts[0]
    ensures (forall k :: 0 <= k < |parts| ==> sep !in parts[k]) ==> (sep in r <==> |parts| >= 2)
  {
    if |parts| == 0 then ""
    else if |parts| == 1 then parts[0]
    else parts[0] + [sep] + Join(parts[1..], sep)
  }

  /** No part produced by `Split` contains the separator. */
  lemma {:induction false} SplitPartsFree(s: string, sep: char)
    ensures forall k :: 0 <= k < |Split(s, sep)| ==> sep !in Split(s, sep)[k]
    decreases |s|
  {
    var i := IndexOf(s, sep);
    if i < |s| {
      SplitPartsFree(s[i + 1..], sep);
      assert Split(s, sep) == [s[..i]] + Split(s[i + 1..], sep);
    }
  }

  /** Joining the parts of a split with the same separator gives the string back. */
  lemma {:induction false} JoinSplit(s: string, sep: char)
    ensures Join(Split(s, sep), sep) == s
    decreases |s|
  {
    var i := IndexOf(s, sep);
    if i < |s| {
      var rest := Split(s[i + 1..], sep);
      JoinSplit(s[i + 1..], sep);
      JoinCons(s[..i], rest, sep);
      assert s == s[..i] + [sep] + s[i + 1..];
    } else {
      assert Split(s, sep) == [s];
    }
  }

  /** Joining a first part in front of at least one more puts one separator between them. */
  lemma JoinCons(first: string, rest: seq<string>, sep: char)
    requires |rest| >= 1
    ensures Join([first] + rest, sep) == first + [sep] + Join(rest, sep)
  {
    assert ([first] + rest)[1..] == rest;
  }

  /** The first separator of `x + [sep] + rest` is the one right after `x` when `x` holds none. */
  lemma {:induction false} IndexOfAfterFree(x: string, sep: char, rest: string)
    requires sep !in x
    ensures IndexOf(x + [sep] + rest, sep) == |x|
  {
    var s := x + [sep] + rest;
    var i := IndexOf(s, sep);
    assert s[|x|] == sep;
    assert forall j :: 0 <= j < |x| ==> s[j] == x[j];
  }

  /** A string without the separator splits into itself alone. */
  lemma SplitFree(s: string, sep: char)
    requires sep !in s
    ensures Split(s, sep) == [s]
  {
    assert IndexOf(s, sep) == |s|;
  }

  /** Splitting cuts at the first separator, when the part before it holds none. */
  lemma SplitCons(x: string, sep: char, rest: string)
    requires sep !in x
    ensures Split(x + [sep] + rest, sep) == [x] + Split(rest, sep)
  {
    var s := x + [sep] + rest;
    IndexOfAfterFree(x, sep, rest);
    assert s[..|x|] == x;
    assert s[|x| + 1..] == rest;
  }

  /** A separator splits a string into the parts of what lies before it and of what lies after it. */
  lemma {:induction false} SplitAppend(x: string, sep: char, y: string)
    ensures Split(x + [sep] + y, sep) == Split(x, sep) + Split(y, sep)
    decreases |x|
  {
    var i := IndexOf(x, sep);
    if i == |x| {
      SplitFree(x, sep);
      SplitCons(x, sep, y);
    } else {
      assert x == x[..i] + [sep] + x[i + 1..];
      SplitAppend(x[i + 1..], sep, y);
      SplitAppendStep(x[..i], x[i + 1..], sep, y);
    }
  }

  /** The inductive step of `SplitAppend`: peel off the part before the first separator. */
  lemma SplitAppendStep(x1: string, x2: string, sep: char, y: string)
    requires sep !in x1
    requires Split(x2 + [sep] + y, sep) == Split(x2, sep) + Split(y, sep)
    ensures Split(x1 + [sep] + x2 + [sep] + y, sep) == Split(x1 + [sep] + x2, sep) + Split(y, sep)
  {
    var tail := x2 + [sep] + y;
    assert x1 + [sep] + x2 + [sep] + y == x1 + [sep] + tail;
    SplitCons(x1, sep, tail);
    SplitCons(x1, sep, x2);
    Regroup(Split(x1 + [sep] + tail, sep), Split(tail, sep), Split(x1 + [sep] + x2, sep),
      x1, Split(x2, sep), Split(y, sep));
  }

  /** `h + t` with `t == p + q` regroups as `(h + p) + q`, stated on opaque names. */
  lemma Regroup(whole: seq<string>, t: seq<string>, front: seq<string>, h: string, p: seq<string>, q: seq<string>)
    requires whole == [h] + t && t == p + q && front == [h] + p
    ensures whole == front + q
  {
  }

  /**
   * Splitting a join gives the parts back, provided there is at least one part
   * and no part contains the separator.
   */
  lemma {:induction false} SplitJoin(parts: seq<string>, sep: char)
    requires |parts| >= 1
    requires forall k :: 0 <= k < |parts| ==> sep !in parts[k]
    ensures Split(Join(parts, sep), sep) == parts
    decreases |parts|
  {
    if |parts| == 1 {
      assert Join(parts, sep) == parts[0];
      SplitFree(parts[0], sep);
    } else {
      var tail := Join(parts[1..], sep);
      JoinCons(parts[0], parts[1..], sep);
      assert parts == [parts[0]] + parts[1..];
      SplitCons(parts[0], sep, tail);
      SplitJoin(parts[1..], sep);
    }
  }

  /** JavaScript's `String.prototype.substring`: both ends clamped to `[0, |s|]`, swapped when reversed. */
  function Substring(s: string, start: int, end: int): (r: string)
    ensures 0 <= start <= end <= |s| ==> r == s[start..end]
    ensures start <= 0 && 0 <= end <= |s| ==> r == s[..end]
    ensures start <= 0 && end < 0 ==> r == ""
    ensures start <= 0 && end > |s| ==> r == s
  {
    var a := Clamp(start, 0, |s|);
    var b := Clamp(end, 0, |s|);
    if a <= b then s[a..b] else s[b..a]
  }

  function Clamp(x: int, lo: int, hi: int): int
    requires lo <= hi
  {
    if x < lo then lo else if x > hi then hi else x
  }

  /**
   * `toUpperCase` on one character, restricted to ASCII letters: the result is never a
   * lower-case letter, only lower-case letters change, and letters stay letters.
   */
  function UpperChar(c: char): (r: char)
    ensures !('a' <= r <= 'z')
    ensures r != c <==> 'a' <= c <= 'z'
    ensures 'A' <= r <= 'Z' <==> 'A' <= c <= 'Z' || 'a' <= c <= 'z'
    ensures 'a' <= c <= 'z' ==> r as int - 'A' as int == c as int - 'a' as int
  {
    if 'a' <= c <= 'z' then (c as int - 32) as char else c
  }

  /** `toUpperCase` on a string, character by character (ASCII letters only). */
  function Upper(s: string): (r: string)
    ensures |r| == |s|
    ensures forall k :: 0 <= k < |s| ==> r[k] == UpperChar(s[k])
  {
    seq(|s|, k requires 0 <= k < |s| => UpperChar(s[k]))
  }

  /** Upper-casing twice is upper-casing once, and it distributes over concatenation. */
  lemma UpperIdempotentAndAppend(a: string, b: string)
    ensures Upper(Upper(a)) == Upper(a)
    ensures Upper(a + b) == Upper(a) + Upper(b)
  {
    assert forall k :: 0 <= k < |a| ==> UpperChar(UpperChar(a[k])) == UpperChar(a[k]);
  }

  function DigitChar(d: nat): char
    requires d < 10
  {
    ('0' as int + d) as char
  }

  predicate IsDigits(s: string)
  {
    forall k :: 0 <= k < |s| ==> '0' <= s[k] <= '9'
  }

  /** `n.toString()` for a natural number: decimal digits, no leading zero. */
  function NatToString(n: nat): (s: string)
    ensures |s| >= 1 && IsDigits(s)
    ensures s[0] == '0' ==> n == 0
  {
    if n < 10 then [DigitChar(n)] else NatToString(n / 10) + [DigitChar(n % 10)]
  }

  /** Reads a string of decimal digits, as the server reads the `page` parameter. */
  function ParseNat(s: string): nat
    requires IsDigits(s)
  {
    if s == [] then 0 else 10 * ParseNat(s[..|s| - 1]) + (s[|s| - 1] as int - '0' as int)
  }

  /** Reading back the decimal form of a natural gives that natural. */
  lemma {:induction false} ParseNatToString(n: nat)
    ensures ParseNat(NatToString(n)) == n
  {
    if n >= 10 {
      var s := NatToString(n);
      assert s[..|s| - 1] == NatToString(n / 10);
      ParseNatToString(n / 10);
    }
  }
}
