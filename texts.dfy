/** Text helpers for the identifiers the engine prints and splits:
    decimal numbers inside zone ids, the type prefix of a cue key and
    substring search on cue keys. */
module Texts {

  /** The decimal digit character for `d`. */
  function DigitChar(d: nat): (c: char)
    requires d < 10
    ensures '0' <= c <= '9'
  {
    "0123456789"[d]
  }

  /** Python's `str(n)` for a natural number: non-empty, digits only. */
  function NatText(n: nat): (r: string)
    ensures |r| > 0
    ensures forall i :: 0 <= i < |r| ==> '0' <= r[i] <= '9'
    decreases n
  {
    if n < 10 then [DigitChar(n)] else NatText(n / 10) + [DigitChar(n % 10)]
  }

  /** Python's `str(i)` for an integer: a minus sign in front of negatives. */
  function IntText(i: int): (r: string)
    ensures |r| > 0
    ensures (r[0] == '-') <==> i < 0
  {
    if i < 0 then "-" + NatText(-i) else NatText(i)
  }

  /** The number a string of decimal digits denotes, as Python's `int` reads it. */
  function DigitsValue(s: string): nat
    requires forall i :: 0 <= i < |s| ==> '0' <= s[i] <= '9'
    decreases |s|
  {
    if |s| == 0 then 0
    else DigitsValue(s[..|s| - 1]) * 10 + ((s[|s| - 1] as int) - ('0' as int))
  }

  /** Reading back the decimal text of `n` gives `n`. */
  lemma {:induction false} NatTextRoundTrip(n: nat)
    ensures DigitsValue(NatText(n)) == n
    decreases n
  {
    var r := NatText(n);
    if n < 10 {
      assert r[..0] == [];
      assert (DigitChar(n) as int) - ('0' as int) == n;
    } else {
      NatTextRoundTrip(n / 10);
      assert r[..|r| - 1] == NatText(n / 10);
      assert (DigitChar(n % 10) as int) - ('0' as int) == n % 10;
    }
  }

  /** Different numbers print differently. */
  lemma NatTextInjective(a: nat, b: nat)
    ensures NatText(a) == NatText(b) <==> a == b
  {
    NatTextRoundTrip(a);
    NatTextRoundTrip(b);
  }

  /** Different integers print differently. */
  lemma IntTextInjective(a: int, b: int)
    ensures IntText(a) == IntText(b) <==> a == b
  {
    if IntText(a) == IntText(b) {
      if a < 0 && b < 0 {
        assert NatText(-a) == IntText(a)[1..] == IntText(b)[1..] == NatText(-b);
        NatTextInjective(-a, -b);
      } else if a >= 0 && b >= 0 {
        NatTextInjective(a, b);
      }
    }
  }

  /** `key.split("_")[0] if "_" in key else key`: the text before the first
      underscore, or all of `key` when it has none. */
  function TypePrefix(key: string): (r: string)
    ensures r <= key
    ensures forall i :: 0 <= i < |r| ==> r[i] != '_'
    ensures |r| < |key| ==> key[|r|] == '_'
  {
    if |key| == 0 || key[0] == '_' then "" else [key[0]] + TypePrefix(key[1..])
  }

  /** The type prefix of `head + rest`, where `head` has no underscore and
      `rest` starts with one, is `head`. */
  lemma {:induction false} TypePrefixBeforeUnderscore(head: string, rest: string)
    requires forall i :: 0 <= i < |head| ==> head[i] != '_'
    requires |rest| > 0 && rest[0] == '_'
    ensures TypePrefix(head + rest) == head
  {
    if |head| > 0 {
      assert (head + rest)[1..] == head[1..] + rest;
      TypePrefixBeforeUnderscore(head[1..], rest);
    }
  }

  /** Python's `sub in s` on strings: `sub` starts at some position of `s`. */
  predicate Contains(s: string, sub: string) {
    sub <= s || (|s| > 0 && Contains(s[1..], sub))
  }

  /** An occurrence of `sub` at position `i` makes `s` contain it. */
  lemma {:induction false} ContainsAt(s: string, sub: string, i: nat)
    requires i + |sub| <= |s| && s[i..i + |sub|] == sub
    ensures Contains(s, sub)
  {
    if i > 0 {
      assert s[1..][i - 1..i - 1 + |sub|] == s[i..i + |sub|];
      ContainsAt(s[1..], sub, i - 1);
    }
  }

  /** A text with `sub` spliced between `a` and `b` contains `sub`. */
  lemma ContainsBetween(a: string, sub: string, b: string)
    ensures Contains(a + sub + b, sub)
  {
    var s := a + sub + b;
    assert s[|a|..|a| + |sub|] == sub;
    ContainsAt(s, sub, |a|);
  }
}
