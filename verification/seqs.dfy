/** Order-preserving filtering of sequences, the `Array.prototype.filter` the store uses. */
module Seqs {

  /** `idx` lists, in strictly increasing order, positions of `s` whose elements spell out `r`. */
  ghost predicate IsEmbedding<T>(r: seq<T>, s: seq<T>, idx: seq<nat>)
  {
    && |idx| == |r|
    && (forall k :: 0 <= k < |idx| ==> idx[k] < |s| && r[k] == s[idx[k]])
    && (forall k, l :: 0 <= k < l < |idx| ==> idx[k] < idx[l])
  }

  /** `r` is `s` with some elements dropped and the rest left in their order. */
  ghost predicate IsSubsequence<T>(r: seq<T>, s: seq<T>)
  {
    exists idx :: IsEmbedding(r, s, idx)
  }

  /** The elements of `s` satisfying `keep`, in their original order. */
  function Filter<T(!new)>(keep: T -> bool, s: seq<T>): (r: seq<T>)
    ensures |r| <= |s|
    ensures forall x :: x in r <==> x in s && keep(x)
    ensures forall x :: multiset(r)[x] == if keep(x) then multiset(s)[x] else 0
  {
    if |s| == 0 then []
    else
      assert s == [s[0]] + s[1..];
      if keep(s[0]) then [s[0]] + Filter(keep, s[1..])
      else Filter(keep, s[1..])
  }

  /** Every position moved one place to the right. */
  function Shift(idx: seq<nat>): (r: seq<nat>)
    ensures |r| == |idx|
    ensures forall k :: 0 <= k < |idx| ==> r[k] == idx[k] + 1
  {
    seq(|idx|, k requires 0 <= k < |idx| => idx[k] + 1)
  }

  /** An embedding into the tail of `s` is, shifted by one, an embedding into `s` avoiding position 0. */
  lemma ShiftEmbedding<T>(r: seq<T>, s: seq<T>, idx: seq<nat>)
    requires |s| > 0
    requires IsEmbedding(r, s[1..], idx)
    ensures IsEmbedding(r, s, Shift(idx))
    ensures IsEmbedding([s[0]] + r, s, [0] + Shift(idx))
    ensures forall i :: 1 <= i < |s| ==> (i in Shift(idx) <==> i - 1 in idx)
    ensures 0 !in Shift(idx)
  {
    var sh := Shift(idx);
    forall i | 1 <= i < |s|
      ensures i in sh <==> i - 1 in idx
    {
      if i in sh {
        var k :| 0 <= k < |sh| && sh[k] == i;
        assert idx[k] == i - 1;
      }
      if i - 1 in idx {
        var k :| 0 <= k < |idx| && idx[k] == i - 1;
        assert sh[k] == i;
      }
    }
    var r' := [s[0]] + r;
    var sh' := [0] + sh;
    forall k | 0 <= k < |sh'|
      ensures sh'[k] < |s| && r'[k] == s[sh'[k]]
    {
      if k > 0 {
        assert sh'[k] == sh[k - 1] && r'[k] == r[k - 1];
      }
    }
  }

  /** Filtering yields a subsequence of `s` whose positions are exactly those of the elements
      satisfying `keep`; `idx` lists those positions in increasing order. */
  lemma {:induction false} FilterIsKeptSubsequence<T(!new)>(keep: T -> bool, s: seq<T>) returns (idx: seq<nat>)
    ensures IsEmbedding(Filter(keep, s), s, idx)
    ensures forall i :: 0 <= i < |s| ==> (keep(s[i]) <==> i in idx)
  {
    if |s| == 0 {
      idx := [];
    } else {
      var tail := FilterIsKeptSubsequence(keep, s[1..]);
      var rest := Filter(keep, s[1..]);
      ShiftEmbedding(rest, s, tail);
      if keep(s[0]) {
        assert Filter(keep, s) == [s[0]] + rest;
        idx := [0] + Shift(tail);
      } else {
        assert Filter(keep, s) == rest;
        idx := Shift(tail);
      }
      forall i | 0 <= i < |s|
        ensures keep(s[i]) <==> i in idx
      {
        if i > 0 {
          assert s[i] == s[1..][i - 1];
        }
      }
    }
  }

  /** Filtering keeps the survivors in their original relative order. */
  lemma FilterIsSubsequence<T(!new)>(keep: T -> bool, s: seq<T>)
    ensures IsSubsequence(Filter(keep, s), s)
  {
    var idx := FilterIsKeptSubsequence(keep, s);
  }

  /** When every element is kept, filtering returns the sequence itself. */
  lemma {:induction false} FilterKeepsAll<T(!new)>(keep: T -> bool, s: seq<T>)
    requires forall x :: x in s ==> keep(x)
    ensures Filter(keep, s) == s
  {
    if |s| > 0 {
      assert s[0] in s;
      assert forall x :: x in s[1..] ==> x in s;
      FilterKeepsAll(keep, s[1..]);
      assert s == [s[0]] + s[1..];
    }
  }

  /** Filtering twice with the same predicate is filtering once. */
  lemma FilterIdempotent<T(!new)>(keep: T -> bool, s: seq<T>)
    ensures Filter(keep, Filter(keep, s)) == Filter(keep, s)
  {
    FilterKeepsAll(keep, Filter(keep, s));
  }

  /** Two predicates that agree on the elements of `s` filter it the same way. */
  lemma {:induction false} FilterCongruent<T(!new)>(f: T -> bool, g: T -> bool, s: seq<T>)
    requires forall x :: x in s ==> f(x) == g(x)
    ensures Filter(f, s) == Filter(g, s)
  {
    if |s| > 0 {
      assert s[0] in s;
      assert forall x :: x in s[1..] ==> x in s;
      FilterCongruent(f, g, s[1..]);
    }
  }
}
