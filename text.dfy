/**
 * The few pieces of Go's `strings` and `fmt` packages that the sync logic
 * depends on: substring search, joining and splitting on a separator, and
 * the decimal text of an integer.
 */
module Text {

  /** `sub` occurs in `s` starting at position `i`. */
  predicate OccursAt(sub: string, s: string, i: nat) {
    i + |sub| <= |s| && s[i..i + |sub|] == sub
  }

  /** `sub` occurs in `s` at some position. */
  ghost predicate IsSubstring(sub: string, s: string) {
    exists i: nat :: OccursAt(sub, s, i)
  }

  /** strings.Contains(s, sub): a left-to-right search for `sub` in `s`. */
  function Contains(s: string, sub: string): (r: bool)
    ensures r <==> IsSubstring(sub, s)
    decreases |s|
  {
    if |sub| > |s| then false
    else if s[..|sub|] == sub then
      assert OccursAt(sub, s, 0);
      true
    else
      var r := Contains(s[1..], sub);
      if r then
        var i: nat :| OccursAt(sub, s[1..], i);
        assert s[1..][i..i + |sub|] == s[i + 1..i + 1 + |sub|];
        assert OccursAt(sub, s, i + 1);
        true
      else
        assert !IsSubstring(sub, s) by {
          forall i: nat | OccursAt(sub, s, i)
            ensures false
          {
            if i > 0 {
              var t := s[1..];
              assert i - 1 + |sub| <= |t|;
              assert t[i - 1..i - 1 + |sub|] == s[i..i + |sub|];
              assert OccursAt(sub, t, i - 1);
            }
          }
        }
        false
  }

  /** The summed length of `parts`. */
  function TotalLength(parts: seq<string>): nat {
    if parts == [] then 0 else |parts[0]| + TotalLength(parts[1..])
  }

  /**
   * strings.Join(parts, sep): the parts in order with one separator between
   * neighbours, so the text starts with the first part and is as long as the
   * parts and the separators together.
   */
  function Join(parts: seq<string>, sep: string): (r: string)
    ensures |parts| == 0 ==> r == ""
    ensures |parts| >= 1 ==> |r| == TotalLength(parts) + (|parts| - 1) * |sep|
    ensures |parts| >= 1 ==> |parts[0]| <= |r| && r[..|parts[0]|] == parts[0]
  {
    if |parts| == 0 then ""
    else if |parts| == 1 then parts[0]
    else
      assert (|parts| - 1) * |sep| == |sep| + (|parts| - 2) * |sep|;
      parts[0] + sep + Join(parts[1..], sep)
  }

  /** strings.Split(s, [c]): the pieces of `s` between occurrences of `c`; "" splits into [""]. */
  function Split(s: string, c: char): (r: seq<string>)
    ensures |r| >= 1
  {
    if s == [] then [""]
    else
      var rest := Split(s[1..], c);
      if s[0] == c then [""] + rest else [[s[0]] + rest[0]] + rest[1..]
  }

  lemma {:induction false} SplitWithout(p: string, c: char)
    requires c !in p
    ensures Split(p, c) == [p]
  {
    if p != [] {
      SplitWithout(p[1..], c);
      assert [p[0]] + p[1..] == p;
    }
  }

  lemma {:induction false} SplitAfter(p: string, c: char, rest: string)
    requires c !in p
    ensures Split(p + [c] + rest, c) == [p] + Split(rest, c)
  {
    if p == [] {
      assert p + [c] + rest == [c] + rest;
      assert ([c] + rest)[1..] == rest;
    } else {
      SplitAfter(p[1..], c, rest);
      assert (p + [c] + rest)[1..] == p[1..] + [c] + rest;
      assert [p[0]] + p[1..] == p;
    }
  }

  /** Joining on `c` and splitting on `c` give back the parts when no part contains `c`. */
  lemma {:induction false} SplitJoin(parts: seq<string>, c: char)
    requires |parts| >= 1
    requires forall k :: 0 <= k < |parts| ==> c !in parts[k]
    ensures Split(Join(parts, [c]), c) == parts
  {
    if |parts| == 1 {
      SplitWithout(parts[0], c);
    } else {
      SplitJoin(parts[1..], c);
      SplitAfter(parts[0], c, Join(parts[1..], [c]));
      assert [parts[0]] + parts[1..] == parts;
    }
  }

  /** The decimal digit character for `d`. */
  function DigitChar(d: nat): char
    requires d < 10
  {
    ('0' as int + d) as char
  }

  predicate IsDigit(ch: char) {
    '0' <= ch <= '9'
  }

  /** The value of a decimal digit character. */
  function DigitValue(ch: char): nat
    requires IsDigit(ch)
  {
    (ch as int - '0' as int) as nat
  }

  /** fmt.Sprint of a non-negative integer: its shortest decimal text. */
  function NatToString(n: nat): (r: string)
    ensures |r| >= 1
    ensures forall k :: 0 <= k < |r| ==> IsDigit(r[k])
    ensures r[0] == '0' ==> n == 0
  {
    if n < 10 then [DigitChar(n)] else NatToString(n / 10) + [DigitChar(n % 10)]
  }

  /** fmt.Sprint of a Go int: a minus sign before the digits of a negative value. */
  function IntToString(i: int): (r: string)
    ensures |r| >= 1
    ensures r[0] == '-' <==> i < 0
    ensures r[0] == '-' ==> forall k :: 1 <= k < |r| ==> IsDigit(r[k])
    ensures r[0] != '-' ==> forall k :: 0 <= k < |r| ==> IsDigit(r[k])
  {
    if i < 0 then "-" + NatToString(-i) else NatToString(i)
  }

  /** The value of a string of decimal digits. */
  function DigitsValue(s: string): nat
    requires forall k :: 0 <= k < |s| ==> IsDigit(s[k])
  {
    if s == [] then 0 else DigitsValue(s[..|s| - 1]) * 10 + DigitValue(s[|s| - 1])
  }

  /** The integer a decimal text denotes, reading an optional leading minus sign. */
  function ParseInt(s: string): int
    requires |s| >= 1
    requires s[0] == '-' ==> forall k :: 1 <= k < |s| ==> IsDigit(s[k])
    requires s[0] != '-' ==> forall k :: 0 <= k < |s| ==> IsDigit(s[k])
  {
    if s[0] == '-' then 0 - DigitsValue(s[1..]) else DigitsValue(s)
  }

  lemma {:induction false} NatToStringValue(n: nat)
    ensures DigitsValue(NatToString(n)) == n
  {
    var r := NatToString(n);
    if n >= 10 {
      NatToStringValue(n / 10);
      assert r[..|r| - 1] == NatToString(n / 10);
      assert DigitValue(r[|r| - 1]) == n % 10;
      assert n == n / 10 * 10 + n % 10;
    }
  }

  /** Reading back the decimal text of an integer gives the integer. */
  lemma IntToStringRoundTrip(i: int)
    ensures ParseInt(IntToString(i)) == i
  {
    var r := IntToString(i);
    if i < 0 {
      var d := NatToString(-i);
      NatToStringValue(-i);
      assert r[1..] == d;
    } else {
      NatToStringValue(i);
      assert r[0] != '-';
    }
  }

  /** Distinct integers have distinct decimal texts. */
  lemma IntToStringInjective(i: int, j: int)
    requires i != j
    ensures IntToString(i) != IntToString(j)
  {
    IntToStringRoundTrip(i);
    IntToStringRoundTrip(j);
  }
}
