/** Order-preserving filtering of sequences: `xs.filter(keep)` in TypeScript and a
    `WHERE` clause over a table. */
module Seqs {

  function FilterBy<T>(s: seq<T>, keep: T -> bool): (r: seq<T>)
    ensures |r| <= |s|
    decreases |s|
  {
    if |s| == 0 then []
    else (if keep(s[0]) then [s[0]] else []) + FilterBy(s[1..], keep)
  }

  /** The filter keeps exactly the elements that pass the test. */
  lemma {:induction false} FilterMembers<T>(s: seq<T>, keep: T -> bool)
    ensures forall i :: 0 <= i < |FilterBy(s, keep)| ==>
      FilterBy(s, keep)[i] in s && keep(FilterBy(s, keep)[i])
    ensures forall i :: 0 <= i < |s| && keep(s[i]) ==> s[i] in FilterBy(s, keep)
    decreases |s|
  {
    if |s| > 0 {
      FilterMembers(s[1..], keep);
      var rest := FilterBy(s[1..], keep);
      var head: seq<T> := if keep(s[0]) then [s[0]] else [];
      assert FilterBy(s, keep) == head + rest;
      forall i | 0 <= i < |s| && keep(s[i])
        ensures s[i] in FilterBy(s, keep)
      {
        if i > 0 {
          assert s[i] == s[1..][i - 1];
        }
      }
    }
  }

  /** `a` can be obtained from `b` by deleting elements, without reordering. */
  predicate IsSubsequence<T(==)>(a: seq<T>, b: seq<T>)
    decreases |b|
  {
    if |a| == 0 then true
    else if |b| == 0 then false
    else if a[0] == b[0] then IsSubsequence(a[1..], b[1..])
    else IsSubsequence(a, b[1..])
  }

  /** Filtering keeps the surviving elements in their original order. */
  lemma {:induction false} FilterIsSubsequence<T>(s: seq<T>, keep: T -> bool)
    ensures IsSubsequence(FilterBy(s, keep), s)
    decreases |s|
  {
    if |s| > 0 {
      FilterIsSubsequence(s[1..], keep);
      var rest := FilterBy(s[1..], keep);
      if keep(s[0]) {
        assert FilterBy(s, keep) == [s[0]] + rest;
        assert ([s[0]] + rest)[1..] == rest;
      } else {
        assert FilterBy(s, keep) == rest;
        SubsequenceOfTail(rest, s);
      }
    }
  }

  /** A subsequence of the tail is a subsequence of the whole. */
  lemma {:induction false} SubsequenceOfTail<T>(a: seq<T>, b: seq<T>)
    requires |b| > 0 && IsSubsequence(a, b[1..])
    ensures IsSubsequence(a, b)
    decreases |b|, 0
  {
    if |a| > 0 && a[0] == b[0] {
      SubsequenceDropHead(a, b[1..]);
    }
  }

  /** Dropping the first element of a subsequence keeps it a subsequence. */
  lemma {:induction false} SubsequenceDropHead<T>(a: seq<T>, b: seq<T>)
    requires |a| > 0 && IsSubsequence(a, b)
    ensures IsSubsequence(a[1..], b)
    decreases |b|, 1
  {
    assert |b| > 0;
    if a[0] == b[0] {
      SubsequenceOfTail(a[1..], b);
    } else {
      SubsequenceDropHead(a, b[1..]);
      SubsequenceOfTail(a[1..], b);
    }
  }

  /** Filtering twice with the same test is filtering once. */
  lemma {:induction false} FilterIdempotent<T>(s: seq<T>, keep: T -> bool)
    ensures FilterBy(FilterBy(s, keep), keep) == FilterBy(s, keep)
  {
    FilterMembers(s, keep);
    FilterKeepsAll(FilterBy(s, keep), keep);
  }

  /** When every element passes the test, filtering changes nothing. */
  lemma {:induction false} FilterKeepsAll<T>(s: seq<T>, keep: T -> bool)
    requires forall i :: 0 <= i < |s| ==> keep(s[i])
    ensures FilterBy(s, keep) == s
    decreases |s|
  {
    if |s| > 0 {
      FilterKeepsAll(s[1..], keep);
      assert s == [s[0]] + s[1..];
    }
  }

  /** When no element passes the test, the filter yields nothing. */
  lemma {:induction false} FilterNone<T>(s: seq<T>, keep: T -> bool)
    requires forall i :: 0 <= i < |s| ==> !keep(s[i])
    ensures FilterBy(s, keep) == []
    decreases |s|
  {
    if |s| > 0 {
      assert forall i :: 0 <= i < |s[1..]| ==> s[1..][i] == s[i + 1];
      FilterNone(s[1..], keep);
    }
  }

  /** When exactly one position passes the test, the filter yields that element alone. */
  lemma {:induction false} FilterOnly<T>(s: seq<T>, keep: T -> bool, i: nat)
    requires i < |s| && keep(s[i])
    requires forall j :: 0 <= j < |s| && j != i ==> !keep(s[j])
    ensures FilterBy(s, keep) == [s[i]]
    decreases |s|
  {
    if i == 0 {
      assert forall j :: 0 <= j < |s[1..]| ==> s[1..][j] == s[j + 1];
      FilterNone(s[1..], keep);
    } else {
      FilterOnly(s[1..], keep, i - 1);
    }
  }

  /** When two positions pass the test, the filter yields at least two elements. */
  lemma {:induction false} FilterAtLeastTwo<T>(s: seq<T>, keep: T -> bool, i: nat, j: nat)
    requires i < j < |s| && keep(s[i]) && keep(s[j])
    ensures |FilterBy(s, keep)| >= 2
    decreases |s|
  {
    if i == 0 {
      FilterMembers(s[1..], keep);
      assert s[1..][j - 1] in FilterBy(s[1..], keep);
    } else {
      FilterAtLeastTwo(s[1..], keep, i - 1, j - 1);
    }
  }

  /** When every element but the k-th passes the test, the filter removes exactly
      the k-th. */
  lemma {:induction false} FilterRemovesOne<T>(s: seq<T>, keep: T -> bool, k: nat)
    requires k < |s| && !keep(s[k])
    requires forall i :: 0 <= i < |s| && i != k ==> keep(s[i])
    ensures FilterBy(s, keep) == s[..k] + s[k + 1..]
    decreases |s|
  {
    assert forall i :: 0 <= i < |s[1..]| ==> s[1..][i] == s[i + 1];
    if k == 0 {
      FilterKeepsAll(s[1..], keep);
    } else {
      FilterRemovesOne(s[1..], keep, k - 1);
      assert s[..k] == [s[0]] + s[1..][..k - 1];
      assert s[k + 1..] == s[1..][k..];
    }
  }

  /** The positions the filter takes its elements from, in increasing order: every
      element of the result is the element of the input at that position. */
  lemma {:induction false} FilterIndices<T>(s: seq<T>, keep: T -> bool) returns (idx: seq<nat>)
    ensures |idx| == |FilterBy(s, keep)|
    ensures forall k :: 0 <= k < |idx| ==> idx[k] < |s| && FilterBy(s, keep)[k] == s[idx[k]]
    ensures forall k, l :: 0 <= k < l < |idx| ==> idx[k] < idx[l]
    decreases |s|
  {
    if |s| == 0 {
      idx := [];
    } else {
      var rest := FilterIndices(s[1..], keep);
      var tail := FilterBy(s[1..], keep);
      var shifted := ShiftByOne(s, tail, rest);
      if keep(s[0]) {
        assert FilterBy(s, keep) == [s[0]] + tail;
        idx := PrependIndex(s, tail, shifted);
      } else {
        assert FilterBy(s, keep) == tail;
        idx := shifted;
      }
    }
  }

  /** Positions into the tail of `s`, moved up by one, are positions into `s`. */
  lemma ShiftByOne<T>(s: seq<T>, tail: seq<T>, rest: seq<nat>) returns (shifted: seq<nat>)
    requires |s| > 0 && |rest| == |tail|
    requires forall k :: 0 <= k < |rest| ==> rest[k] < |s| - 1 && tail[k] == s[1..][rest[k]]
    requires forall k, l :: 0 <= k < l < |rest| ==> rest[k] < rest[l]
    ensures |shifted| == |tail|
    ensures forall k :: 0 <= k < |shifted| ==> 0 < shifted[k] < |s| && tail[k] == s[shifted[k]]
    ensures forall k, l :: 0 <= k < l < |shifted| ==> shifted[k] < shifted[l]
  {
    shifted := seq(|rest|, k requires 0 <= k < |rest| => rest[k] + 1);
    forall k | 0 <= k < |shifted|
      ensures 0 < shifted[k] < |s| && tail[k] == s[shifted[k]]
    {
      assert s[1..][rest[k]] == s[rest[k] + 1];
    }
  }

  /** One step of `FilterIndices`: the tail's positions moved up by one, with 0 in
      front when the head is kept. */
  lemma PrependIndex<T>(s: seq<T>, tail: seq<T>, shifted: seq<nat>) returns (idx: seq<nat>)
    requires |s| > 0 && |shifted| == |tail|
    requires forall k :: 0 <= k < |shifted| ==> 0 < shifted[k] < |s| && tail[k] == s[shifted[k]]
    requires forall k, l :: 0 <= k < l < |shifted| ==> shifted[k] < shifted[l]
    ensures |idx| == |[s[0]] + tail|
    ensures forall k :: 0 <= k < |idx| ==> idx[k] < |s| && ([s[0]] + tail)[k] == s[idx[k]]
    ensures forall k, l :: 0 <= k < l < |idx| ==> idx[k] < idx[l]
  {
    var r := [s[0]] + tail;
    idx := [0] + shifted;
    forall k | 0 <= k < |idx|
      ensures idx[k] < |s| && r[k] == s[idx[k]]
    {
      if k > 0 {
        assert idx[k] == shifted[k - 1] && r[k] == tail[k - 1];
      }
    }
    forall k, l | 0 <= k < l < |idx|
      ensures idx[k] < idx[l]
    {
      assert idx[l] == shifted[l - 1];
      if k > 0 {
        assert idx[k] == shifted[k - 1];
      }
    }
  }

  /** Filtering a sequence and counting occurrences: the result holds each kept
      element as often as the input does and no other element. */
  lemma {:induction false} FilterMultiset<T>(s: seq<T>, keep: T -> bool, x: T)
    ensures multiset(FilterBy(s, keep))[x] == if keep(x) then multiset(s)[x] else 0
    decreases |s|
  {
    if |s| > 0 {
      FilterMultiset(s[1..], keep, x);
      assert s == [s[0]] + s[1..];
    }
  }

  /** `FilterMultiset` for every element at once. */
  lemma FilterCounts<T>(s: seq<T>, keep: T -> bool)
    ensures forall x :: multiset(FilterBy(s, keep))[x] == if keep(x) then multiset(s)[x] else 0
  {
    forall x
      ensures multiset(FilterBy(s, keep))[x] == if keep(x) then multiset(s)[x] else 0
    {
      FilterMultiset(s, keep, x);
    }
  }

  /** Filtering distributes over concatenation. */
  lemma {:induction false} FilterAppend<T>(a: seq<T>, b: seq<T>, keep: T -> bool)
    ensures FilterBy(a + b, keep) == FilterBy(a, keep) + FilterBy(b, keep)
    decreases |a|
  {
    if |a| > 0 {
      FilterAppend(a[1..], b, keep);
      assert (a + b)[1..] == a[1..] + b;
    } else {
      assert a + b == b;
    }
  }
}
