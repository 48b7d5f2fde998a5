/**
 * The Python `str` operations the source relies on, with CPython's semantics:
 * `strip()`, `split(sep)`, `sep.join(parts)`, `sub in s`, `startswith`,
 * `endswith`, and the ASCII part of `lower()` and `capitalize()`.
 */
module Text {
  import opened Wrappers

  /** `c.isspace()` in CPython: the characters `str.strip()` removes. */
  predicate IsSpace(c: char) {
    var n := c as int;
    || 0x09 <= n <= 0x0D || 0x1C <= n <= 0x20
    || n == 0x85 || n == 0xA0 || n == 0x1680
    || 0x2000 <= n <= 0x200A
    || n == 0x2028 || n == 0x2029 || n == 0x202F || n == 0x205F || n == 0x3000
  }

  predicate AllSpace(s: string) {
    forall i :: 0 <= i < |s| ==> IsSpace(s[i])
  }

  /** A string with no whitespace at either end, as `strip()` leaves it. */
  predicate Stripped(s: string) {
    s == [] || (!IsSpace(s[0]) && !IsSpace(s[|s| - 1]))
  }

  /** `s.lstrip()`. */
  function TrimStart(s: string): (r: string)
    ensures |r| <= |s| && r == s[|s| - |r|..]
    ensures AllSpace(s[..|s| - |r|])
    ensures r == [] || !IsSpace(r[0])
  {
    if s == [] || !IsSpace(s[0]) then s
    else
      var r := TrimStart(s[1..]);
      assert s[1..][..|s| - 1 - |r|] == s[1..|s| - |r|];
      r
  }

  /** `s.rstrip()`. */
  function TrimEnd(s: string): (r: string)
    ensures |r| <= |s| && r == s[..|r|]
    ensures AllSpace(s[|r|..])
    ensures r == [] || !IsSpace(r[|r| - 1])
  {
    if s == [] || !IsSpace(s[|s| - 1]) then s
    else
      var r := TrimEnd(s[..|s| - 1]);
      assert s[..|s| - 1][|r|..] == s[|r|..|s| - 1];
      r
  }

  /** `s.strip()`: `s` without its leading and trailing whitespace. */
  function Strip(s: string): (r: string)
    ensures Stripped(r)
  {
    var t := TrimStart(s);
    var r := TrimEnd(t);
    assert r == [] || r[0] == t[0];
    r
  }

  /** What `strip()` keeps is one slice of `s`, and everything it drops is whitespace. */
  lemma StripSlice(s: string) returns (a: nat, b: nat)
    ensures a <= b <= |s| && Strip(s) == s[a..b]
    ensures forall k :: 0 <= k < a || b <= k < |s| ==> IsSpace(s[k])
  {
    var t := TrimStart(s);
    var r := TrimEnd(t);
    a, b := |s| - |t|, |s| - |t| + |r|;
    assert r == s[a..b];
    forall k | 0 <= k < a ensures IsSpace(s[k]) {
      assert s[..a][k] == s[k];
    }
    forall k | b <= k < |s| ensures IsSpace(s[k]) {
      assert t[|r|..][k - a - |r|] == s[k];
    }
  }

  /** Whether `sub` occurs in `s` starting at index `i`. */
  predicate OccursAt(s: string, sub: string, i: int) {
    0 <= i && i + |sub| <= |s| && s[i..i + |sub|] == sub
  }

  /** `s.find(sub)`, as an option: the first index at which `sub` occurs. */
  function Find(s: string, sub: string): (r: Option<nat>)
    ensures r.Some? ==> OccursAt(s, sub, r.value)
    ensures r.Some? ==> forall j :: 0 <= j < r.value ==> !OccursAt(s, sub, j)
    ensures r.None? ==> forall j :: !OccursAt(s, sub, j)
    decreases |s|
  {
    if |s| < |sub| then None
    else if s[..|sub|] == sub then Some(0)
    else
      var rest := Find(s[1..], sub);
      ShiftOccurrence(s, sub);
      match rest
      case None => None
      case Some(i) => Some(i + 1)
  }

  /** An occurrence at `j >= 1` in `s` is one at `j - 1` in `s[1..]`. */
  lemma ShiftOccurrence(s: string, sub: string)
    requires |s| >= 1
    ensures forall j :: 1 <= j ==> (OccursAt(s, sub, j) <==> OccursAt(s[1..], sub, j - 1))
  {
    forall j | 1 <= j
      ensures OccursAt(s, sub, j) <==> OccursAt(s[1..], sub, j - 1)
    {
      if j + |sub| <= |s| {
        assert s[1..][j - 1..j - 1 + |sub|] == s[j..j + |sub|];
      }
    }
  }

  /** Python's `sub in s` for strings. */
  predicate Contains(s: string, sub: string) {
    Find(s, sub).Some?
  }

  predicate StartsWith(s: string, prefix: string) {
    |prefix| <= |s| && s[..|prefix|] == prefix
  }

  predicate EndsWith(s: string, suffix: string) {
    |suffix| <= |s| && s[|s| - |suffix|..] == suffix
  }

  /** `s.split(sep)` for a non-empty separator: the pieces between successive occurrences. */
  function Split(s: string, sep: string): (parts: seq<string>)
    requires |sep| > 0
    ensures |parts| >= 1
    ensures forall k :: 0 <= k < |parts| ==> !Contains(parts[k], sep)
    decreases |s|
  {
    match Find(s, sep)
    case None => [s]
    case Some(i) =>
      PrefixBeforeFirstHasNone(s, sep, i);
      [s[..i]] + Split(s[i + |sep|..], sep)
  }

  /** `sep.join(parts)`. */
  function Join(sep: string, parts: seq<string>): string {
    if parts == [] then ""
    else if |parts| == 1 then parts[0]
    else parts[0] + sep + Join(sep, parts[1..])
  }

  /** The text of `s` before the first `sep`, or all of `s`: `s.split(sep)[0]`. */
  function Before(s: string, sep: string): string {
    match Find(s, sep)
    case None => s
    case Some(i) => s[..i]
  }

  /** No occurrence of `sub` lies entirely before the first one. */
  lemma PrefixBeforeFirstHasNone(s: string, sub: string, i: nat)
    requires |sub| > 0 && i <= |s|
    requires forall j :: 0 <= j < i ==> !OccursAt(s, sub, j)
    ensures !Contains(s[..i], sub)
  {
    SliceOccurrence(s, sub, 0, i);
    assert s[..i] == s[0..i];
  }

  /** A string with no occurrence of `sub` has none in any slice. */
  lemma SliceKeepsAbsence(s: string, sub: string, a: int, b: int)
    requires |sub| > 0 && 0 <= a <= b <= |s|
    requires !Contains(s, sub)
    ensures !Contains(s[a..b], sub)
  {
    SliceOccurrence(s, sub, a, b);
  }

  /** An occurrence in a slice is an occurrence in the whole string. */
  lemma SliceOccurrence(s: string, sub: string, a: int, b: int)
    requires 0 <= a <= b <= |s|
    ensures forall j :: OccursAt(s[a..b], sub, j) ==> OccursAt(s, sub, a + j)
  {
    forall j | OccursAt(s[a..b], sub, j)
      ensures OccursAt(s, sub, a + j)
    {
      var n, t := |sub|, s[a..b];
      assert forall k :: j <= k < j + n ==> t[k] == s[a + k];
      assert t[j..j + n] == s[a + j..a + j + n];
    }
  }

  /** Joining the pieces of a split with its separator gives back the string. */
  lemma {:induction false} JoinSplit(s: string, sep: string)
    requires |sep| > 0
    ensures Join(sep, Split(s, sep)) == s
    decreases |s|
  {
    var f := Find(s, sep);
    if f.Some? {
      var i := f.value;
      var rest := s[i + |sep|..];
      var tail := Split(rest, sep);
      JoinSplit(rest, sep);
      var parts := [s[..i]] + tail;
      assert Split(s, sep) == parts;
      assert parts[1..] == tail;
      assert Join(sep, parts) == s[..i] + sep + rest;
      assert s[i..i + |sep|] == sep;
      assert s == s[..i] + s[i..i + |sep|] + rest;
    }
  }

  /** The first piece of a split is the text before the first separator. */
  lemma SplitHead(s: string, sep: string)
    requires |sep| > 0
    ensures Split(s, sep)[0] == Before(s, sep)
  {
  }

  /** The first-occurrence characterisation pins `Find` down. */
  lemma FindIs(s: string, sub: string, i: nat)
    requires OccursAt(s, sub, i)
    requires forall j :: 0 <= j < i ==> !OccursAt(s, sub, j)
    ensures Find(s, sub) == Some(i)
  {
  }

  /** When the separator occurs, the second piece is the text after its first occurrence, up to the next one. */
  lemma SplitSecond(s: string, sep: string, i: nat)
    requires |sep| > 0
    requires Find(s, sep) == Some(i)
    ensures |Split(s, sep)| >= 2
    ensures Split(s, sep)[1] == Before(s[i + |sep|..], sep)
  {
    var rest := Split(s[i + |sep|..], sep);
    assert Split(s, sep) == [s[..i]] + rest;
    assert Split(s, sep)[1] == rest[0];
    SplitHead(s[i + |sep|..], sep);
  }

  /** Stripping never introduces an occurrence. */
  lemma StripKeepsAbsence(s: string, sub: string)
    requires |sub| > 0 && !Contains(s, sub)
    ensures !Contains(Strip(s), sub)
  {
    var a, b := StripSlice(s);
    SliceKeepsAbsence(s, sub, a, b);
  }

  /** Stripping keeps everything between two non-space characters. */
  lemma StripBounds(s: string, i: nat, j: nat) returns (a: nat, b: nat)
    requires i <= j < |s| && !IsSpace(s[i]) && !IsSpace(s[j])
    ensures a <= i && j < b <= |s| && Strip(s) == s[a..b]
  {
    a, b := StripSlice(s);
    assert !(i < a) && !(b <= j);
  }

  /** A slice across three parts: the tail of the first, all of the second, the head of the third. */
  lemma SliceOfThree(pre: string, mid: string, post: string, a: nat, b: nat)
    requires a <= |pre| && |pre| + |mid| <= b <= |pre| + |mid| + |post|
    ensures (pre + mid + post)[a..b] == pre[a..] + mid + post[..b - |pre| - |mid|]
  {
    var s := pre + mid + post;
    var r := pre[a..] + mid + post[..b - |pre| - |mid|];
    assert |s[a..b]| == |r|;
    forall k | 0 <= k < |r| ensures s[a..b][k] == r[k] {
      if k < |pre| - a {
        assert r[k] == pre[a + k];
      } else if k < |pre| - a + |mid| {
        assert r[k] == mid[k - (|pre| - a)];
      } else {
        assert r[k] == post[k - (|pre| - a) - |mid|];
      }
    }
  }

  /** A join begins with its first part. */
  lemma JoinStartsWithFirst(sep: string, parts: seq<string>)
    requires |parts| >= 1
    ensures StartsWith(Join(sep, parts), parts[0])
  {
  }

  /** A string without the separator splits into itself alone. */
  lemma SplitWithout(s: string, sep: string)
    requires |sep| > 0 && !Contains(s, sep)
    ensures Split(s, sep) == [s]
  {
  }

  /** Stripping a string that has no whitespace at either end changes nothing. */
  lemma StripStripped(s: string)
    requires Stripped(s)
    ensures Strip(s) == s
  {
    assert TrimStart(s) == s;
  }

  /** Stripping never introduces a character. */
  lemma StripKeepsCharAbsence(s: string, c: char)
    requires c !in s
    ensures c !in Strip(s)
  {
    var a, b := StripSlice(s);
    forall k | 0 <= k < b - a ensures Strip(s)[k] != c {
      assert Strip(s)[k] == s[a + k];
    }
  }

  /** A string in which the one-character string `[c]` does not occur does not hold `c`. */
  lemma NoOccurrenceNoChar(s: string, c: char)
    requires !Contains(s, [c])
    ensures c !in s
  {
    forall j | 0 <= j < |s| ensures s[j] != c {
      assert !OccursAt(s, [c], j);
      assert s[j..j + 1] == [s[j]];
    }
  }

  /** A string without `c` holds no occurrence of the one-character string `[c]`. */
  lemma NoCharNoOccurrence(s: string, c: char)
    requires c !in s
    ensures !Contains(s, [c])
  {
    forall j | 0 <= j < |s| ensures !OccursAt(s, [c], j) {
      assert j + 1 <= |s| ==> s[j..j + 1][0] == s[j];
    }
  }

  /** A join holds a character only if the separator or one of the parts does. */
  lemma {:induction false} JoinAvoids(sep: string, parts: seq<string>, c: char)
    requires c !in sep
    requires forall k :: 0 <= k < |parts| ==> c !in parts[k]
    ensures c !in Join(sep, parts)
    decreases |parts|
  {
    if |parts| > 1 {
      JoinAvoids(sep, parts[1..], c);
    }
  }

  /** A join of non-empty parts with no whitespace at either end has none at either end either. */
  lemma {:induction false} JoinStripped(sep: string, parts: seq<string>)
    requires forall k :: 0 <= k < |parts| ==> parts[k] != [] && Stripped(parts[k])
    ensures Stripped(Join(sep, parts))
    ensures parts != [] ==> Join(sep, parts) != []
    decreases |parts|
  {
    if |parts| > 1 {
      var rest := Join(sep, parts[1..]);
      JoinStripped(sep, parts[1..]);
      var r := parts[0] + sep + rest;
      assert r[0] == parts[0][0];
      assert r[|r| - 1] == rest[|rest| - 1];
    }
  }

  /** `c.lower()` on ASCII letters; every other character is kept. */
  function LowerChar(c: char): char {
    if 'A' <= c <= 'Z' then (c as int + 32) as char else c
  }

  function UpperChar(c: char): char {
    if 'a' <= c <= 'z' then (c as int - 32) as char else c
  }

  /** `s.lower()`, restricted to ASCII letters. */
  function Lower(s: string): (r: string)
    ensures |r| == |s| && forall i :: 0 <= i < |s| ==> r[i] == LowerChar(s[i])
  {
    seq(|s|, i requires 0 <= i < |s| => LowerChar(s[i]))
  }

  /** `s.capitalize()`, restricted to ASCII letters: first upper-cased, the rest lower-cased. */
  function Capitalize(s: string): (r: string)
    ensures |r| == |s|
    ensures s != [] ==> r[0] == UpperChar(s[0]) && r[1..] == Lower(s[1..])
  {
    if s == [] then [] else [UpperChar(s[0])] + Lower(s[1..])
  }

  /** `str(n)` for an integer: its decimal digits, with a leading '-' when negative. */
  function Decimal(n: int): (r: string)
    ensures r != []
    decreases if n < 0 then 1 - n else n
  {
    if n < 0 then "-" + Decimal(-n)
    else if n < 10 then [Digit(n)]
    else Decimal(n / 10) + [Digit(n % 10)]
  }

  function Digit(d: int): char
    requires 0 <= d < 10
  {
    "0123456789"[d]
  }
}
