/**
 * The handful of JavaScript string operations the action relies on:
 * `String.prototype.split` with a non-empty separator, `slice(0, n)`,
 * and the decimal text of a number inside a template literal.
 */
module Strings {

  import opened Wrappers

  /** `d` occurs in `s` starting at position `i`. */
  ghost predicate OccursAt(s: string, d: string, i: int)
  {
    0 <= i && i + |d| <= |s| && s[i..i + |d|] == d
  }

  ghost predicate Occurs(s: string, d: string)
  {
    exists i :: OccursAt(s, d, i)
  }

  /** `i` is the leftmost occurrence of `d` in `s`. */
  ghost predicate FirstOccurrence(s: string, d: string, i: int)
  {
    OccursAt(s, d, i) && forall j :: 0 <= j < i ==> !OccursAt(s, d, j)
  }

  lemma FirstOccurrenceUnique(s: string, d: string, i: int, j: int)
    requires FirstOccurrence(s, d, i) && FirstOccurrence(s, d, j)
    ensures i == j
  {
  }

  /** The index of the first occurrence of `d` in `s` (`indexOf`), or `None`. */
  function IndexOf(s: string, d: string): (r: Option<nat>)
    ensures r.Some? ==> FirstOccurrence(s, d, r.value)
    ensures r.None? ==> !Occurs(s, d)
  {
    IndexFrom(s, d, 0)
  }

  /** The first occurrence of `d` in `s` at or after position `k`. */
  function IndexFrom(s: string, d: string, k: nat): (r: Option<nat>)
    ensures r.Some? ==> k <= r.value && OccursAt(s, d, r.value)
    ensures r.Some? ==> forall j :: k <= j < r.value ==> !OccursAt(s, d, j)
    ensures r.None? ==> forall j :: k <= j ==> !OccursAt(s, d, j)
    decreases |s| - k
  {
    if |s| < k + |d| then None
    else if s[k..k + |d|] == d then Some(k)
    else IndexFrom(s, d, k + 1)
  }

  /**
   * `parts[0] + d + parts[1] + ... + d + parts[n-1]`, the inverse of `Split`
   * (`Array.prototype.join`).
   */
  function Join(parts: seq<string>, d: string): string
  {
    if |parts| == 0 then ""
    else if |parts| == 1 then parts[0]
    else parts[0] + d + Join(parts[1..], d)
  }

  lemma JoinCons(head: string, rest: seq<string>, d: string)
    requires |rest| >= 1
    ensures Join([head] + rest, d) == head + d + Join(rest, d)
  {
    assert ([head] + rest)[1..] == rest;
  }

  /**
   * `s.split(d)` for a non-empty separator `d`: cut at the leftmost
   * occurrence, then split what follows it. The contract pins every part
   * only for a separator that cannot overlap itself (such as `"-pr\n\n"` or
   * `"/"`); for one that can, it fixes the first part and the join, and
   * `SecondFieldSegment` and `SplitJoin` give the facts the action relies on.
   */
  function Split(s: string, d: string): (parts: seq<string>)
    requires |d| > 0
    ensures |parts| >= 1
    ensures Join(parts, d) == s
    ensures forall k :: 0 <= k < |parts| ==> !Occurs(parts[k], d)
    ensures |parts| == 1 <==> !Occurs(s, d)
    ensures |parts| > 1 ==> FirstOccurrence(s, d, |parts[0]|)
    decreases |s|
  {
    match IndexOf(s, d)
    case None => [s]
    case Some(i) =>
      var rest := Split(s[i + |d|..], d);
      SplitStep(s, d, i, rest);
      [s[..i]] + rest
  }

  /** One step of `Split`: the part before the first occurrence, then the rest. */
  lemma SplitStep(s: string, d: string, i: int, rest: seq<string>)
    requires |d| > 0 && FirstOccurrence(s, d, i)
    requires |rest| >= 1 && Join(rest, d) == s[i + |d|..]
    requires forall k :: 0 <= k < |rest| ==> !Occurs(rest[k], d)
    ensures Join([s[..i]] + rest, d) == s
    ensures forall k :: 0 <= k < |[s[..i]] + rest| ==> !Occurs(([s[..i]] + rest)[k], d)
    ensures Occurs(s, d)
  {
    PrefixBeforeFirstIsFree(s, d, i);
    JoinCons(s[..i], rest, d);
    assert s == s[..i] + d + s[i + |d|..] by { assert s[i..i + |d|] == d; }
    forall k | 0 <= k < |[s[..i]] + rest|
      ensures !Occurs(([s[..i]] + rest)[k], d)
    {
      if k > 0 { assert ([s[..i]] + rest)[k] == rest[k - 1]; }
    }
  }

  lemma PrefixBeforeFirstIsFree(s: string, d: string, i: int)
    requires |d| > 0 && FirstOccurrence(s, d, i)
    ensures !Occurs(s[..i], d)
  {
    forall j | OccursAt(s[..i], d, j)
      ensures false
    {
      assert s[..i][j..j + |d|] == s[j..j + |d|];
      assert OccursAt(s, d, j);
    }
  }

  lemma ConcatAssoc<T>(a: seq<T>, b: seq<T>, c: seq<T>)
    ensures (a + b) + c == a + (b + c)
  {
  }

  /** A slice of the middle part of `a + b + c`. */
  lemma SliceOfMiddle<T>(a: seq<T>, b: seq<T>, c: seq<T>, i: int, j: int)
    requires 0 <= i <= j <= |b|
    ensures (a + b + c)[|a| + i .. |a| + j] == b[i..j]
  {
  }

  lemma JoinPrefix(parts: seq<string>, d: string)
    requires |parts| >= 1
    ensures |parts[0]| <= |Join(parts, d)| && Join(parts, d)[..|parts[0]|] == parts[0]
  {
  }

  /** Joining lists end to end joins their joins with one more separator. */
  lemma {:induction false} JoinAppend(ps: seq<string>, qs: seq<string>, d: string)
    requires |ps| >= 1 && |qs| >= 1
    ensures Join(ps + qs, d) == Join(ps, d) + d + Join(qs, d)
  {
    if |ps| == 1 {
      JoinCons(ps[0], qs, d);
      assert ps + qs == [ps[0]] + qs;
    } else {
      JoinAppend(ps[1..], qs, d);
      JoinCons(ps[0], ps[1..] + qs, d);
      assert ps + qs == [ps[0]] + (ps[1..] + qs);
      JoinCons(ps[0], ps[1..], d);
      assert ps == [ps[0]] + ps[1..];
    }
  }

  /** A one-character string occurs exactly where the character does. */
  lemma OccursChar(s: string, c: char)
    ensures Occurs(s, [c]) <==> c in s
  {
    if c in s {
      var k :| 0 <= k < |s| && s[k] == c;
      assert s[k..k + 1] == [c];
      assert OccursAt(s, [c], k);
    }
    if Occurs(s, [c]) {
      var k :| OccursAt(s, [c], k);
      assert s[k] == s[k..k + 1][0];
    }
  }

  /**
   * Splitting on a one-character separator undoes joining with it, provided no
   * part contains that character.
   */
  lemma {:induction false} SplitJoin(ps: seq<string>, c: char)
    requires |ps| >= 1
    requires forall k :: 0 <= k < |ps| ==> c !in ps[k]
    ensures Split(Join(ps, [c]), [c]) == ps
  {
    var s := Join(ps, [c]);
    if |ps| == 1 {
      OccursChar(ps[0], c);
    } else {
      var rest := Join(ps[1..], [c]);
      JoinCons(ps[0], ps[1..], [c]);
      assert ps == [ps[0]] + ps[1..];
      var i := |ps[0]|;
      assert s[i..i + 1] == [c];
      forall j | 0 <= j < i
        ensures !OccursAt(s, [c], j)
      {
        assert s[j] == ps[0][j];
        assert s[j..j + 1][0] == s[j];
      }
      assert FirstOccurrence(s, [c], i);
      var r := IndexOf(s, [c]);
      FirstOccurrenceUnique(s, [c], i, r.value);
      assert s[..i] == ps[0];
      assert s[i + 1..] == rest;
      SplitJoin(ps[1..], c);
    }
  }

  /**
   * `m` is the text that follows the first occurrence of `d` in `s`, up to the
   * next occurrence of `d` or else to the end of `s`.
   */
  ghost predicate SegmentAfterFirst(s: string, d: string, m: string)
  {
    exists i :: FirstOccurrence(s, d, i) &&
      var rest := s[i + |d|..];
      (FirstOccurrence(rest, d, |m|) && rest[..|m|] == m) || (!Occurs(rest, d) && rest == m)
  }

  lemma SegmentAfterFirstUnique(s: string, d: string, m1: string, m2: string)
    requires |d| > 0
    requires SegmentAfterFirst(s, d, m1) && SegmentAfterFirst(s, d, m2)
    ensures m1 == m2
  {
    var i1 :| FirstOccurrence(s, d, i1) &&
      var rest := s[i1 + |d|..];
      (FirstOccurrence(rest, d, |m1|) && rest[..|m1|] == m1) || (!Occurs(rest, d) && rest == m1);
    var i2 :| FirstOccurrence(s, d, i2) &&
      var rest := s[i2 + |d|..];
      (FirstOccurrence(rest, d, |m2|) && rest[..|m2|] == m2) || (!Occurs(rest, d) && rest == m2);
    FirstOccurrenceUnique(s, d, i1, i2);
    var rest := s[i1 + |d|..];
    if FirstOccurrence(rest, d, |m1|) && FirstOccurrence(rest, d, |m2|) {
      FirstOccurrenceUnique(rest, d, |m1|, |m2|);
    }
  }

  /** Element `[1]` of `s.split(d)`: `None` (JavaScript `undefined`) when `d` does not occur. */
  function SecondField(s: string, d: string): (r: Option<string>)
    requires |d| > 0
  {
    var parts := Split(s, d);
    if |parts| > 1 then Some(parts[1]) else None
  }

  /** `SecondField` is absent exactly when `d` does not occur, and otherwise is the segment after the first occurrence. */
  lemma SecondFieldSegment(s: string, d: string)
    requires |d| > 0
    ensures SecondField(s, d).None? <==> !Occurs(s, d)
    ensures SecondField(s, d).Some? ==> SegmentAfterFirst(s, d, SecondField(s, d).value)
  {
    var r := IndexOf(s, d);
    if r.Some? {
      var i := r.value;
      var rest := s[i + |d|..];
      var tail := Split(rest, d);
      assert Split(s, d) == [s[..i]] + tail;
      var m := tail[0];
      assert SecondField(s, d) == Some(m);
      JoinPrefix(tail, d);
      if |tail| > 1 {
        assert FirstOccurrence(rest, d, |m|) && rest[..|m|] == m;
      } else {
        assert !Occurs(rest, d) && rest == m;
      }
      assert SegmentAfterFirst(s, d, m);
    }
  }

  /** `s.slice(0, n)`: the first `n` characters, or all of `s` when it is shorter. */
  function Take(s: string, n: nat): (r: string)
    ensures |r| == if |s| < n then |s| else n
    ensures r <= s
  {
    if |s| <= n then s else s[..n]
  }

  predicate IsDigit(c: char)
  {
    '0' <= c <= '9'
  }

  predicate AllDigits(s: string)
  {
    forall k :: 0 <= k < |s| ==> IsDigit(s[k])
  }

  /** No line break inside `s`. */
  predicate SingleLine(s: string)
  {
    '\n' !in s
  }

  function DigitChar(n: nat): (c: char)
    requires n < 10
    ensures IsDigit(c)
  {
    ('0' as int + n) as char
  }

  function DigitValue(c: char): (n: nat)
    requires IsDigit(c)
    ensures n < 10 && DigitChar(n) == c
  {
    c as int - '0' as int
  }

  /** The decimal text of `n`, as a template literal renders a number. */
  function Decimal(n: nat): (s: string)
    ensures |s| >= 1 && AllDigits(s)
    ensures s[0] == '0' <==> n == 0
    ensures s[0] == '0' ==> |s| == 1
  {
    if n < 10 then [DigitChar(n)] else Decimal(n / 10) + [DigitChar(n % 10)]
  }

  /** The number a string of decimal digits denotes (leading zeros allowed). */
  function ParseDecimal(s: string): nat
    requires AllDigits(s)
  {
    if s == [] then 0 else 10 * ParseDecimal(s[..|s| - 1]) + DigitValue(s[|s| - 1])
  }

  lemma {:induction false} DecimalRoundTrip(n: nat)
    ensures ParseDecimal(Decimal(n)) == n
  {
    if n >= 10 {
      var prefix := Decimal(n / 10);
      assert (prefix + [DigitChar(n % 10)])[..|prefix|] == prefix;
      DecimalRoundTrip(n / 10);
    }
  }

}
