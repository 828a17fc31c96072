/** Tallies over a sequence of bin indices: the quantities that the count
    table of the counting-sort kernel holds at each stage. */
module Counts {

  /** Every bin index is non-negative. */
  predicate NonNegative(s: seq<int>)
  {
    forall k :: 0 <= k < |s| ==> s[k] >= 0
  }

  /** The number of positions of `s` that hold bin `b`. */
  function CountEq(s: seq<int>, b: int): (r: nat)
    ensures r <= |s|
  {
    if |s| == 0 then 0
    else CountEq(s[..|s| - 1], b) + (if s[|s| - 1] == b then 1 else 0)
  }

  /** The number of positions of `s` that hold a bin below `b`. */
  function CountLess(s: seq<int>, b: int): (r: nat)
    ensures r <= |s|
  {
    if |s| == 0 then 0
    else CountLess(s[..|s| - 1], b) + (if s[|s| - 1] < b then 1 else 0)
  }

  /** Extending a prefix by one position adds that position's bin. */
  lemma {:induction false} CountEqPrefixStep(s: seq<int>, i: nat, b: int)
    requires i < |s|
    ensures CountEq(s[..i + 1], b) == CountEq(s[..i], b) + (if s[i] == b then 1 else 0)
  {
    assert s[..i + 1][..i] == s[..i];
  }

  /** A longer prefix holds at least as many occurrences of a bin; strictly
      more when the extra part contains one. */
  lemma {:induction false} CountEqPrefixMono(s: seq<int>, i: nat, j: nat, b: int)
    requires i < j <= |s|
    ensures CountEq(s[..i], b) + (if s[i] == b then 1 else 0) <= CountEq(s[..j], b)
    decreases j - i
  {
    CountEqPrefixStep(s, i, b);
    if i + 1 < j {
      CountEqPrefixMono(s, i + 1, j, b);
      CountEqPrefixStep(s, i + 1, b);
    }
  }

  /** The exclusive prefix sum step: the positions below `b + 1` are those
      below `b` together with those equal to `b`. */
  lemma {:induction false} CountLessStep(s: seq<int>, b: int)
    ensures CountLess(s, b + 1) == CountLess(s, b) + CountEq(s, b)
  {
    if |s| > 0 {
      CountLessStep(s[..|s| - 1], b);
    }
  }

  /** Raising the bound never lowers the count. */
  lemma {:induction false} CountLessMono(s: seq<int>, b: int, c: int)
    requires b <= c
    ensures CountLess(s, b) <= CountLess(s, c)
  {
    if |s| > 0 {
      CountLessMono(s[..|s| - 1], b, c);
    }
  }

  /** With non-negative bins nothing lies below bin 0. */
  lemma {:induction false} CountLessZero(s: seq<int>)
    requires NonNegative(s)
    ensures CountLess(s, 0) == 0
  {
    if |s| > 0 {
      CountLessZero(s[..|s| - 1]);
    }
  }

  /** When every bin lies below `b`, every position is counted. */
  lemma {:induction false} CountLessAll(s: seq<int>, b: int)
    requires forall k :: 0 <= k < |s| ==> s[k] < b
    ensures CountLess(s, b) == |s|
  {
    if |s| > 0 {
      CountLessAll(s[..|s| - 1], b);
    }
  }
}
