/** The robust smoother: the median of a sequence of readings, as numpy
    computes it (the middle of the sorted values, or the mean of the two
    middle ones for an even count). */
module Smoothing {

  ghost predicate SortedAsc(s: seq<real>) {
    forall i, j :: 0 <= i <= j < |s| ==> s[i] <= s[j]
  }

  /** Inserts `x` into a sorted sequence. */
  function Insert(x: real, s: seq<real>): (r: seq<real>)
    requires SortedAsc(s)
    ensures SortedAsc(r)
    ensures multiset(r) == multiset(s) + multiset{x}
    ensures |r| == |s| + 1
  {
    if |s| == 0 then [x]
    else if x <= s[0] then [x] + s
    else
      var rest := Insert(x, s[1..]);
      ConsAfterInsert(x, s, rest);
      [s[0]] + rest
  }

  /** Putting the head of a sorted `s` back in front of `x` inserted into the
      tail keeps the order and the multiset. */
  lemma ConsAfterInsert(x: real, s: seq<real>, rest: seq<real>)
    requires SortedAsc(s) && |s| > 0 && s[0] < x
    requires SortedAsc(rest) && multiset(rest) == multiset(s[1..]) + multiset{x}
    ensures SortedAsc([s[0]] + rest)
    ensures multiset([s[0]] + rest) == multiset(s) + multiset{x}
  {
    assert s == [s[0]] + s[1..];
    forall k | 0 <= k < |rest| ensures s[0] <= rest[k] {
      assert rest[k] in multiset(rest);
      if rest[k] != x {
        assert rest[k] in multiset(s[1..]);
        var i :| 0 <= i < |s[1..]| && s[1..][i] == rest[k];
        assert s[i + 1] == rest[k];
      }
    }
    var r := [s[0]] + rest;
    forall i, j | 0 <= i <= j < |r| ensures r[i] <= r[j] {
      if 0 < i {
        assert r[i] == rest[i - 1] && r[j] == rest[j - 1];
      } else if 0 < j {
        assert r[j] == rest[j - 1];
      }
    }
  }

  /** The values of `s` in ascending order. */
  function Sort(s: seq<real>): (r: seq<real>)
    ensures SortedAsc(r)
    ensures multiset(r) == multiset(s)
    ensures |r| == |s|
  {
    if |s| == 0 then []
    else
      assert s == [s[0]] + s[1..];
      Insert(s[0], Sort(s[1..]))
  }

  /** `np.median`. */
  function Median(s: seq<real>): real
    requires |s| > 0
  {
    var r := Sort(s);
    var mid := |r| / 2;
    if |r| % 2 == 1 then r[mid] else (r[mid - 1] + r[mid]) / 2.0
  }

  /** The median lies within any bounds that hold every value; in particular
      between the least and the greatest value. */
  lemma MedianWithinBounds(s: seq<real>, lo: real, hi: real)
    requires |s| > 0
    requires forall i :: 0 <= i < |s| ==> lo <= s[i] <= hi
    ensures lo <= Median(s) <= hi
  {
    var r := Sort(s);
    forall k | 0 <= k < |r| ensures lo <= r[k] <= hi {
      assert r[k] in multiset(s);
      var i :| 0 <= i < |s| && s[i] == r[k];
    }
  }

  /** The median of equal values is that value. */
  lemma MedianOfConstant(s: seq<real>, c: real)
    requires |s| > 0
    requires forall i :: 0 <= i < |s| ==> s[i] == c
    ensures Median(s) == c
  {
    MedianWithinBounds(s, c, c);
  }
}
