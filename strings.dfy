/**
 * The Python string built-ins the pipeline relies on: `sep.join(parts)`,
 * the substring test `k in s`, and f-string formatting of integers.
 */
module Strings {

  /** `sep.join(parts)`. */
  function Join(parts: seq<string>, sep: string): (r: string)
    ensures parts == [] ==> r == ""
    ensures |parts| == 1 ==> r == parts[0]
  {
    if parts == [] then ""
    else if |parts| == 1 then parts[0]
    else parts[0] + sep + Join(parts[1..], sep)
  }

  /** Joining two non-empty lists puts exactly one separator between their joins. */
  lemma {:induction false} JoinAppend(a: seq<string>, b: seq<string>, sep: string)
    requires a != [] && b != []
    ensures Join(a + b, sep) == Join(a, sep) + sep + Join(b, sep)
  {
    if |a| == 1 {
      assert a + b == [a[0]] + b;
    } else {
      assert (a + b)[1..] == a[1..] + b;
      JoinAppend(a[1..], b, sep);
    }
  }

  /** Concatenation of a list of lists. */
  function Flatten<T>(xs: seq<seq<T>>): (r: seq<T>)
    ensures xs == [] ==> r == []
  {
    if xs == [] then [] else xs[0] + Flatten(xs[1..])
  }

  lemma {:induction false} FlattenAppend<T>(a: seq<seq<T>>, b: seq<seq<T>>)
    ensures Flatten(a + b) == Flatten(a) + Flatten(b)
  {
    if a == [] {
      assert a + b == b;
    } else {
      assert (a + b)[1..] == a[1..] + b;
      FlattenAppend(a[1..], b);
    }
  }

  /**
   * Joining every group and then joining the group texts with the same
   * separator gives the join of all the elements: grouping loses nothing
   * and adds nothing.
   */
  lemma {:induction false} JoinGroups(groups: seq<seq<string>>, sep: string)
    requires forall i :: 0 <= i < |groups| ==> groups[i] != []
    ensures Join(seq(|groups|, i requires 0 <= i < |groups| => Join(groups[i], sep)), sep)
         == Join(Flatten(groups), sep)
  {
    var texts := seq(|groups|, i requires 0 <= i < |groups| => Join(groups[i], sep));
    if |groups| <= 1 {
      if |groups| == 1 {
        assert Flatten(groups) == groups[0] + Flatten(groups[1..]);
        assert groups[0] + [] == groups[0];
      }
    } else {
      var rest := groups[1..];
      var restTexts := seq(|rest|, i requires 0 <= i < |rest| => Join(rest[i], sep));
      JoinGroups(rest, sep);
      assert texts[1..] == restTexts;
      assert texts == [texts[0]] + restTexts;
      FlattenNonEmpty(rest);
      JoinAppend(groups[0], Flatten(rest), sep);
      JoinAppend([texts[0]], restTexts, sep);
    }
  }

  lemma {:induction false} FlattenNonEmpty(groups: seq<seq<string>>)
    requires groups != [] && groups[0] != []
    ensures Flatten(groups) != []
  {
  }

  /** `p` is a prefix of `s`. */
  predicate IsPrefix(p: string, s: string) {
    |p| <= |s| && s[..|p|] == p
  }

  /** Python's `k in s` for strings: `k` occurs in `s` as a contiguous substring. */
  predicate Contains(s: string, k: string)
    decreases |s|
  {
    IsPrefix(k, s) || (s != [] && Contains(s[1..], k))
  }

  /** The recursive test agrees with the positional definition of a substring. */
  lemma {:induction false} ContainsAt(s: string, k: string, i: nat)
    requires i + |k| <= |s| && s[i..i + |k|] == k
    ensures Contains(s, k)
  {
    if i > 0 {
      assert s[1..][i - 1..i - 1 + |k|] == s[i..i + |k|];
      ContainsAt(s[1..], k, i - 1);
    }
  }

  lemma {:induction false} ContainsIsAt(s: string, k: string) returns (i: nat)
    requires Contains(s, k)
    ensures i + |k| <= |s| && s[i..i + |k|] == k
    decreases |s|
  {
    if IsPrefix(k, s) {
      i := 0;
    } else {
      var j := ContainsIsAt(s[1..], k);
      i := j + 1;
      assert s[1..][j..j + |k|] == s[i..i + |k|];
    }
  }

  /** A substring of `s` is a substring of any string that has `s` inside it. */
  lemma ContainsInside(a: string, s: string, b: string, k: string)
    requires Contains(s, k)
    ensures Contains(a + s + b, k)
  {
    var i := ContainsIsAt(s, k);
    assert (a + s + b)[|a| + i..|a| + i + |k|] == s[i..i + |k|];
    ContainsAt(a + s + b, k, |a| + i);
  }

  /** ASCII decimal digits, the class `[0-9]` of a regular expression. */
  predicate IsDigit(c: char) {
    '0' as int <= c as int <= '9' as int
  }

  function DigitValue(c: char): (d: nat)
    requires IsDigit(c)
    ensures d < 10
  {
    (c as int) - ('0' as int)
  }

  function DigitChar(d: nat): (c: char)
    requires d < 10
    ensures IsDigit(c) && DigitValue(c) == d
  {
    ['0', '1', '2', '3', '4', '5', '6', '7', '8', '9'][d]
  }

  /** f"{n}" for a natural number: its decimal digits, most significant first. */
  function NatToString(n: nat): (r: string)
    ensures r != []
    ensures forall i :: 0 <= i < |r| ==> IsDigit(r[i])
  {
    if n < 10 then [DigitChar(n)] else NatToString(n / 10) + [DigitChar(n % 10)]
  }

  /** The value of a string of decimal digits. */
  function DigitsValue(s: string): nat
    requires forall i :: 0 <= i < |s| ==> IsDigit(s[i])
  {
    if s == [] then 0
    else DigitsValue(s[..|s| - 1]) * 10 + DigitValue(s[|s| - 1])
  }

  /** Reading the decimal digits back gives the number: formatting loses nothing. */
  lemma {:induction false} NatToStringRoundTrip(n: nat)
    ensures DigitsValue(NatToString(n)) == n
  {
    if n >= 10 {
      NatToStringRoundTrip(n / 10);
      var s := NatToString(n);
      assert s[..|s| - 1] == NatToString(n / 10);
    }
  }

  lemma NatToStringInjective(m: nat, n: nat)
    requires NatToString(m) == NatToString(n)
    ensures m == n
  {
    NatToStringRoundTrip(m);
    NatToStringRoundTrip(n);
  }

  /** f"{i}" for an integer: a minus sign for negative numbers, then the digits. */
  function IntToString(i: int): (r: string)
    ensures r != []
    ensures i >= 0 <==> IsDigit(r[0])
  {
    if i < 0 then "-" + NatToString(-i) else NatToString(i)
  }

  lemma IntToStringInjective(i: int, j: int)
    requires IntToString(i) == IntToString(j)
    ensures i == j
  {
    if i < 0 && j < 0 {
      assert NatToString(-i) == IntToString(i)[1..];
      assert NatToString(-j) == IntToString(j)[1..];
      NatToStringInjective(-i, -j);
    } else if i >= 0 && j >= 0 {
      NatToStringInjective(i, j);
    }
  }
}
