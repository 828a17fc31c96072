/** What the counting-sort kernel computes, stated independently of its
    loops: the stable argsort of a sequence of bin indices. */
module StableSort {
  import opened Counts

  /** `p` lists every position below `n` exactly once. */
  predicate IsPermutation(p: seq<int>, n: nat)
  {
    |p| == n &&
    (forall k :: 0 <= k < n ==> 0 <= p[k] < n) &&
    (forall k, l :: 0 <= k < l < n ==> p[k] != p[l]) &&
    (forall i :: 0 <= i < n ==> i in p)
  }

  /** `p` is a permutation of the positions of `s` along which the bins
      never decrease, and positions sharing a bin keep their original order. */
  predicate IsStableArgsort(s: seq<int>, p: seq<int>)
  {
    IsPermutation(p, |s|) &&
    (forall k, l :: 0 <= k < l < |p| ==> s[p[k]] <= s[p[l]]) &&
    (forall k, l :: 0 <= k < l < |p| && s[p[k]] == s[p[l]] ==> p[k] < p[l])
  }

  /** The order a stable sort by bin puts positions in: by bin, then by position. */
  predicate KeyBefore(s: seq<int>, i: int, j: int)
  {
    0 <= i < |s| && 0 <= j < |s| && (s[i] < s[j] || (s[i] == s[j] && i < j))
  }

  /** The number of bins the kernel allocates: one more than the largest
      bin index, or 0 for an empty input. */
  function NumBins(s: seq<int>): (r: nat)
    ensures forall k :: 0 <= k < |s| ==> s[k] < r
    ensures r == 0 || exists k :: 0 <= k < |s| && s[k] == r - 1
  {
    if |s| == 0 then 0
    else
      var m := NumBins(s[..|s| - 1]);
      if m <= s[|s| - 1] then s[|s| - 1] + 1 else m
  }

  /** The positions of `s` that hold bin `b`, in increasing order. */
  function Positions(s: seq<int>, b: int): seq<nat>
  {
    if |s| == 0 then []
    else Positions(s[..|s| - 1], b) + (if s[|s| - 1] == b then [|s| - 1] else [])
  }

  /** A bin's list has one entry per occurrence of the bin. */
  lemma {:induction false} PositionsLength(s: seq<int>, b: int)
    ensures |Positions(s, b)| == CountEq(s, b)
  {
    if |s| > 0 {
      PositionsLength(s[..|s| - 1], b);
    }
  }

  /** The list of a bin holds positions of that bin only, strictly
      increasing, and misses none of them. */
  lemma {:induction false} PositionsSorted(s: seq<int>, b: int)
    ensures forall p :: 0 <= p < |Positions(s, b)| ==> Positions(s, b)[p] < |s| && s[Positions(s, b)[p]] == b
    ensures forall p, q :: 0 <= p < q < |Positions(s, b)| ==> Positions(s, b)[p] < Positions(s, b)[q]
    ensures forall k :: 0 <= k < |s| && s[k] == b ==> k in Positions(s, b)
  {
    if |s| > 0 {
      var t := s[..|s| - 1];
      PositionsSorted(t, b);
      var r := Positions(s, b);
      assert |Positions(t, b)| <= |r|;
      forall p | 0 <= p < |Positions(t, b)| ensures r[p] == Positions(t, b)[p] && r[p] < |t| {
      }
      forall k | 0 <= k < |t| && s[k] == b ensures k in r {
        assert t[k] == s[k];
      }
    }
  }

  /** The positions of the bins below `hi`, bin after bin. */
  function Buckets(s: seq<int>, hi: nat): seq<nat>
  {
    if hi == 0 then [] else Buckets(s, hi - 1) + Positions(s, hi - 1)
  }

  /** With non-negative bins the concatenation holds one entry per position
      whose bin lies below `hi`. */
  lemma {:induction false} BucketsLength(s: seq<int>, hi: nat)
    requires NonNegative(s)
    ensures |Buckets(s, hi)| == CountLess(s, hi)
  {
    if hi == 0 {
      CountLessZero(s);
    } else {
      var front, last := Buckets(s, hi - 1), Positions(s, hi - 1);
      BucketsLength(s, hi - 1);
      PositionsLength(s, hi - 1);
      CountLessStep(s, hi - 1);
      assert CountLess(s, hi) == |front| + |last|;
      assert |Buckets(s, hi)| == |front| + |last|;
    }
  }

  /** The concatenation holds positions of the bins below `hi`, in sort order. */
  lemma {:induction false} BucketsSorted(s: seq<int>, hi: nat)
    ensures forall p :: 0 <= p < |Buckets(s, hi)| ==> Buckets(s, hi)[p] < |s| && s[Buckets(s, hi)[p]] < hi
    ensures forall p, q :: 0 <= p < q < |Buckets(s, hi)| ==> KeyBefore(s, Buckets(s, hi)[p], Buckets(s, hi)[q])
  {
    if hi > 0 {
      var front, last := Buckets(s, hi - 1), Positions(s, hi - 1);
      BucketsSorted(s, hi - 1);
      PositionsSorted(s, hi - 1);
      assert Buckets(s, hi) == front + last;
    }
  }

  /** Where a stable sort by bin puts position `i`: after every position with
      a smaller bin and every earlier position with the same bin. */
  function Rank(s: seq<int>, i: nat): (r: nat)
    requires i < |s|
    ensures r < |s|
  {
    CountEqPrefixMono(s, i, |s|, s[i]);
    assert s[..|s|] == s;
    CountLessStep(s, s[i]);
    CountLess(s, s[i]) + CountEq(s[..i], s[i])
  }

  /** Rank respects the sort order, so distinct positions get distinct ranks. */
  lemma {:induction false} RankOrder(s: seq<int>, i: nat, j: nat)
    requires KeyBefore(s, i, j)
    ensures Rank(s, i) < Rank(s, j)
  {
    if s[i] == s[j] {
      CountEqPrefixMono(s, i, j, s[i]);
    } else {
      CountEqPrefixMono(s, i, |s|, s[i]);
      assert s[..|s|] == s;
      CountLessStep(s, s[i]);
      CountLessMono(s, s[i] + 1, s[j]);
    }
  }

  /** Writing position `i` at its rank spares the slots of all earlier positions. */
  lemma {:induction false} RanksDistinct(s: seq<int>, i: nat)
    requires i < |s|
    ensures forall k :: 0 <= k < i ==> Rank(s, k) != Rank(s, i)
  {
    forall k | 0 <= k < i ensures Rank(s, k) != Rank(s, i) {
      if s[k] <= s[i] { RankOrder(s, k, i); } else { RankOrder(s, i, k); }
    }
  }

  /** Position `i` is entry number CountEq(s[..i], b) of its bin's list. */
  lemma {:induction false} PositionsAt(s: seq<int>, i: nat)
    requires i < |s|
    ensures CountEq(s[..i], s[i]) < |Positions(s, s[i])|
    ensures Positions(s, s[i])[CountEq(s[..i], s[i])] == i
    decreases |s|
  {
    var t := s[..|s| - 1];
    if i == |s| - 1 {
      assert t == s[..i];
      PositionsLength(t, s[i]);
    } else {
      PositionsAt(t, i);
      assert t[..i] == s[..i];
    }
  }

  /** Entry `j` of the list of bin `b` sits right after the lists of the
      smaller bins. */
  lemma {:induction false} BucketsAt(s: seq<int>, hi: nat, b: nat, j: nat)
    requires b < hi && j < |Positions(s, b)|
    ensures |Buckets(s, b)| + j < |Buckets(s, hi)|
    ensures Buckets(s, hi)[|Buckets(s, b)| + j] == Positions(s, b)[j]
    decreases hi
  {
    if b < hi - 1 {
      BucketsAt(s, hi - 1, b, j);
    }
  }

  /** Position `i` stands at its rank in the bucket concatenation. */
  lemma {:induction false} BucketsRankAt(s: seq<int>, hi: nat, i: nat)
    requires NonNegative(s) && i < |s| && s[i] < hi
    ensures Rank(s, i) < |Buckets(s, hi)|
    ensures Buckets(s, hi)[Rank(s, i)] == i
  {
    PositionsAt(s, i);
    BucketsAt(s, hi, s[i], CountEq(s[..i], s[i]));
    BucketsLength(s, s[i]);
  }

  /** When all bins lie below `hi`, every position of `s` stands at its rank
      in the bucket concatenation. */
  lemma {:induction false} BucketsRank(s: seq<int>, hi: nat)
    requires NonNegative(s)
    requires forall k :: 0 <= k < |s| ==> s[k] < hi
    ensures |Buckets(s, hi)| == |s|
    ensures forall i :: 0 <= i < |s| ==> Buckets(s, hi)[Rank(s, i)] == i
    ensures forall i :: 0 <= i < |s| ==> i in Buckets(s, hi)
  {
    CountLessAll(s, hi);
    BucketsLength(s, hi);
    var r := Buckets(s, hi);
    forall i | 0 <= i < |s| ensures r[Rank(s, i)] == i && i in r {
      BucketsRankAt(s, hi, i);
    }
  }

  /** The stable argsort of a sequence of non-negative bins: the positions of
      bin 0 in order, then those of bin 1, and so on up to the largest bin. */
  function Argsort(s: seq<int>): (r: seq<nat>)
    requires NonNegative(s)
    ensures IsStableArgsort(s, r)
    ensures forall i :: 0 <= i < |s| ==> r[Rank(s, i)] == i
  {
    var r := Buckets(s, NumBins(s));
    BucketsRank(s, NumBins(s));
    BucketsSorted(s, NumBins(s));
    r
  }

  /** The ranks of all positions determine the whole order: a sequence that
      holds every position at its rank is the stable argsort. */
  lemma {:induction false} RanksDetermineOrder(s: seq<int>, o: seq<int>)
    requires NonNegative(s)
    requires |o| == |s|
    requires forall i :: 0 <= i < |s| ==> o[Rank(s, i)] == i
    ensures o == Argsort(s)
  {
    var a := Argsort(s);
    forall p | 0 <= p < |s| ensures o[p] == a[p] {
      var e := a[p];
      assert a[Rank(s, e)] == e;
    }
  }

  /** Two stable argsorts that agree before entry `j` agree at `j` too: the
      entry of each must come no later than the other's. */
  lemma {:induction false} AgreeAt(s: seq<int>, p: seq<int>, q: seq<int>, j: nat)
    requires IsStableArgsort(s, p) && IsStableArgsort(s, q)
    requires j < |s|
    requires forall i :: 0 <= i < j ==> p[i] == q[i]
    ensures p[j] == q[j]
  {
    assert p[j] in q && q[j] in p;
    var m :| 0 <= m < |q| && q[m] == p[j];
    var m' :| 0 <= m' < |p| && p[m'] == q[j];
  }

  /** Two stable argsorts of the same bins agree on their first `k` entries. */
  lemma {:induction false} AgreeUpTo(s: seq<int>, p: seq<int>, q: seq<int>, k: nat)
    requires IsStableArgsort(s, p) && IsStableArgsort(s, q)
    requires k <= |s|
    ensures forall j :: 0 <= j < k ==> p[j] == q[j]
  {
    if k > 0 {
      AgreeUpTo(s, p, q, k - 1);
      AgreeAt(s, p, q, k - 1);
    }
  }

  /** There is only one stable argsort, so Argsort is the one. */
  lemma {:induction false} ArgsortUnique(s: seq<int>, p: seq<int>)
    requires NonNegative(s)
    requires IsStableArgsort(s, p)
    ensures p == Argsort(s)
  {
    AgreeUpTo(s, p, Argsort(s), |s|);
  }

  /** The order that leaves every position where it is. */
  function Identity(n: nat): seq<int>
  {
    seq(n, k => k)
  }

  /** Already sorted bins (in particular, all bins equal) give the identity. */
  lemma {:induction false} SortedGivesIdentity(s: seq<int>)
    requires NonNegative(s)
    requires forall k, l :: 0 <= k < l < |s| ==> s[k] <= s[l]
    ensures Argsort(s) == Identity(|s|)
  {
    var id := Identity(|s|);
    forall i | 0 <= i < |s| ensures i in id {
      assert id[i] == i;
    }
    ArgsortUnique(s, id);
  }

  /** Strictly decreasing bins give the reversed order. */
  lemma {:induction false} DecreasingGivesReverse(s: seq<int>)
    requires NonNegative(s)
    requires forall k, l :: 0 <= k < l < |s| ==> s[k] > s[l]
    ensures Argsort(s) == seq(|s|, k => |s| - 1 - k)
  {
    var rev: seq<int> := seq(|s|, k => |s| - 1 - k);
    forall i | 0 <= i < |s| ensures i in rev {
      assert rev[|s| - 1 - i] == i;
    }
    ArgsortUnique(s, rev);
  }

  /** An order whose neighbours are in sort order is in sort order throughout. */
  lemma {:induction false} ChainOrdered(s: seq<int>, p: seq<int>, k: nat, l: nat)
    requires forall m :: 0 <= m < |p| - 1 ==> KeyBefore(s, p[m], p[m + 1])
    requires k < l < |p|
    ensures KeyBefore(s, p[k], p[l])
    decreases l - k
  {
    if k + 1 < l {
      ChainOrdered(s, p, k + 1, l);
    }
  }

  /** A permutation of the positions whose neighbours are in sort order is
      the stable argsort. */
  lemma {:induction false} ChainIsStableArgsort(s: seq<int>, p: seq<int>)
    requires |p| == |s|
    requires forall i :: 0 <= i < |s| ==> i in p
    requires forall m :: 0 <= m < |p| - 1 ==> KeyBefore(s, p[m], p[m + 1])
    ensures IsStableArgsort(s, p)
  {
    forall k, l | 0 <= k < l < |p| ensures KeyBefore(s, p[k], p[l]) {
      ChainOrdered(s, p, k, l);
    }
    forall k | 0 <= k < |p| ensures 0 <= p[k] < |s| {
      if k + 1 < |p| {
        assert KeyBefore(s, p[k], p[k + 1]);
      } else if k > 0 {
        assert KeyBefore(s, p[k - 1], p[k]);
      } else {
        assert 0 in p;
      }
    }
  }

  /** The concrete cases the kernel's own test runs (binsort.py lines 71-74). */
  lemma {:induction false} ScenarioSorted(bins: seq<int>)
    requires bins == [0, 1, 2, 3, 4]
    ensures Argsort(bins) == [0, 1, 2, 3, 4]
  {
    assert forall k :: 0 <= k < 5 ==> bins[k] == k;
    SortedGivesIdentity(bins);
    assert Identity(5) == [0, 1, 2, 3, 4];
  }

  lemma {:induction false} ScenarioReversed(bins: seq<int>)
    requires bins == [4, 3, 2, 1, 0]
    ensures Argsort(bins) == [4, 3, 2, 1, 0]
  {
    assert forall k :: 0 <= k < 5 ==> bins[k] == 4 - k;
    DecreasingGivesReverse(bins);
    assert seq(5, k => 5 - 1 - k) == [4, 3, 2, 1, 0];
  }

  lemma {:induction false} ScenarioReversedWide(bins: seq<int>)
    requires bins == [40, 30, 20, 10, 0]
    ensures Argsort(bins) == [4, 3, 2, 1, 0]
  {
    assert forall k :: 0 <= k < 5 ==> bins[k] == 40 - 10 * k;
    DecreasingGivesReverse(bins);
    assert seq(5, k => 5 - 1 - k) == [4, 3, 2, 1, 0];
  }

  lemma {:induction false} ScenarioPairs(bins: seq<int>)
    requires bins == [0, 0, 2, 2, 1, 1]
    ensures Argsort(bins) == [0, 1, 4, 5, 2, 3]
  {
    var p := [0, 1, 4, 5, 2, 3];
    assert forall i :: 0 <= i < 6 ==> i in p;
    assert forall m :: 0 <= m < 5 ==> KeyBefore(bins, p[m], p[m + 1]);
    ChainIsStableArgsort(bins, p);
    ArgsortUnique(bins, p);
  }
}
