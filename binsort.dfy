/** The counting-sort permutation kernel `approx` of binsort.go: given the
    bin index of every element, it fills `order` with a stable argsort. */
module BinSort {
  import opened Counts
  import opened StableSort

  /** The count table once the bins of `s` are tallied: cell 0 holds 0 and
      cell b + 1 the number of positions holding bin b. */
  function Tally(s: seq<int>, size: nat): seq<int>
  {
    seq(size, c => if c == 0 then 0 else CountEq(s, c - 1))
  }

  /** The sum of a count table. */
  function Sum(t: seq<int>): int
  {
    if |t| == 0 then 0 else Sum(t[..|t| - 1]) + t[|t| - 1]
  }

  /** The inclusive running sums of a table: cell c holds the sum of cells 0..c. */
  function RunningSums(t: seq<int>): seq<int>
  {
    seq(|t|, c requires 0 <= c < |t| => Sum(t[..c + 1]))
  }

  /** Running sums of the tally count, in each cell, the positions below its bin. */
  lemma {:induction false} TallySums(s: seq<int>, size: nat, c: nat)
    requires NonNegative(s) && c < size
    ensures Sum(Tally(s, size)[..c + 1]) == CountLess(s, c)
  {
    var t := Tally(s, size);
    assert t[..c + 1][..c] == t[..c];
    if c == 0 {
      CountLessZero(s);
    } else {
      TallySums(s, size, c - 1);
      CountLessStep(s, c - 1);
    }
  }

  /** So the prefix pass turns the tally into the first write offset of every
      bin: cell b holds the number of positions whose bin lies below b. */
  lemma {:induction false} TallyRunningSums(s: seq<int>, size: nat)
    requires NonNegative(s)
    ensures forall c :: 0 <= c < size ==> RunningSums(Tally(s, size))[c] == CountLess(s, c)
    ensures RunningSums(Tally(s, size)) == Cursors(s, 0, size)
  {
    assert s[..0] == [];
    forall c | 0 <= c < size ensures RunningSums(Tally(s, size))[c] == Cursors(s, 0, size)[c] {
      TallySums(s, size, c);
    }
  }

  /** The write cursors once the first `i` positions are scattered: bin c
      continues after the smaller bins and its i-prefix occurrences. */
  function Cursors(s: seq<int>, i: nat, size: nat): seq<int>
    requires i <= |s|
  {
    seq(size, c => CountLess(s, c) + CountEq(s[..i], c))
  }

  /** Tallying one more position bumps the cell of its bin. */
  lemma {:induction false} TallyStep(s: seq<int>, i: nat, size: nat)
    requires i < |s| && 0 <= s[i] && s[i] + 1 < size
    ensures Tally(s[..i + 1], size) ==
      Tally(s[..i], size)[s[i] + 1 := Tally(s[..i], size)[s[i] + 1] + 1]
  {
    var before, after := Tally(s[..i], size), Tally(s[..i + 1], size);
    forall c | 1 <= c < size ensures after[c] == before[s[i] + 1 := before[s[i] + 1] + 1][c] {
      CountEqPrefixStep(s, i, c - 1);
    }
  }

  /** Scattering position `i` advances the cursor of its bin past it. */
  lemma {:induction false} CursorsStep(s: seq<int>, i: nat, size: nat)
    requires i < |s| && 0 <= s[i] < size
    ensures Cursors(s, i + 1, size) ==
      Cursors(s, i, size)[s[i] := Cursors(s, i, size)[s[i]] + 1]
  {
    var before, after := Cursors(s, i, size), Cursors(s, i + 1, size);
    forall c | 0 <= c < size ensures after[c] == before[s[i] := before[s[i]] + 1][c] {
      CountEqPrefixStep(s, i, c);
    }
  }

  /** First pass (binsort.go lines 21-27): the identity order, and the number
      of bins, one more than the largest bin index. */
  method InitOrder(bins: array<int>, order: array<int>) returns (nBins: nat)
    requires bins != order
    requires bins.Length <= order.Length
    modifies order
    ensures nBins == NumBins(bins[..])
    ensures forall k :: 0 <= k < bins.Length ==> order[k] == k
    ensures order[bins.Length..] == old(order[bins.Length..])
  {
    ghost var s := bins[..];
    var n := bins.Length;
    nBins := 0;
    for i := 0 to n
      invariant nBins == NumBins(s[..i])
      invariant forall k :: 0 <= k < i ==> order[k] == k
      invariant order[n..] == old(order[n..])
    {
      order[i] := i;
      if nBins <= bins[i] {
        nBins := bins[i] + 1;
      }
      assert s[..i + 1][..i] == s[..i];
    }
    assert s[..n] == s;
  }

  /** Second pass (lines 29-30): a zeroed table of nBins + 1 cells in which
      cell b + 1 counts the positions holding bin b. */
  method CountBins(bins: array<int>, nBins: nat) returns (counts: array<int>)
    requires NonNegative(bins[..])
    requires forall k :: 0 <= k < bins.Length ==> bins[k] < nBins
    ensures fresh(counts)
    ensures counts[..] == Tally(bins[..], nBins + 1)
  {
    ghost var s := bins[..];
    counts := new int[nBins + 1](_ => 0);
    assert counts[..] == Tally(s[..0], nBins + 1);
    for i := 0 to bins.Length
      invariant counts[..] == Tally(s[..i], nBins + 1)
    {
      TallyStep(s, i, nBins + 1);
      counts[1 + bins[i]] := counts[1 + bins[i]] + 1;
    }
    assert s[..bins.Length] == s;
  }

  /** Third pass (lines 32-34): running sums of the table, in place. */
  method AccumulateCounts(counts: array<int>)
    modifies counts
    ensures counts[..] == RunningSums(old(counts[..]))
  {
    ghost var t := counts[..];
    if counts.Length == 0 {
      return;
    }
    assert t[..1][..0] == [];
    for i := 1 to counts.Length
      invariant forall c :: 0 <= c < i ==> counts[c] == Sum(t[..c + 1])
      invariant forall c :: i <= c < counts.Length ==> counts[c] == t[c]
    {
      assert t[..i + 1][..i] == t[..i];
      counts[i] := counts[i] + counts[i - 1];
    }
  }

  /** Fourth pass (lines 36-42): every position, in original order, goes to
      the cursor of its bin, which then advances. `starts` holds the first
      write offset of every bin; only its first nBins cells are used. */
  method Scatter(bins: array<int>, order: array<int>, starts: array<int>, nBins: nat)
    requires bins != order && order != starts && bins != starts
    requires bins.Length <= order.Length
    requires NonNegative(bins[..])
    requires forall k :: 0 <= k < bins.Length ==> bins[k] < nBins
    requires starts.Length == nBins + 1
    requires starts[..] == Cursors(bins[..], 0, starts.Length)
    modifies order, starts
    ensures order[..bins.Length] == Argsort(bins[..])
    ensures order[bins.Length..] == old(order[bins.Length..])
    ensures starts[..] == Cursors(bins[..], bins.Length, starts.Length)
  {
    ghost var s := bins[..];
    var n := bins.Length;
    for i := 0 to n
      invariant starts[..] == Cursors(s, i, starts.Length)
      invariant forall k :: 0 <= k < i ==> order[Rank(s, k)] == k
      invariant order[n..] == old(order[n..])
    {
      assert bins[i] < nBins;  // within the slice starts = counts[:nBins]
      var j := starts[bins[i]];
      assert j == Rank(s, i);
      RanksDistinct(s, i);
      order[j] := i;
      CursorsStep(s, i, starts.Length);
      starts[bins[i]] := starts[bins[i]] + 1;
    }
    RanksDetermineOrder(s, order[..n]);
  }

  /** approx(bins, order): `order` receives, in its first |bins| cells, the
      positions of `bins` sorted by bin, ties kept in original order. The
      four passes run in the order of binsort.go; the slice `starts` is the
      count table itself, restricted to its first nBins cells. */
  method Approx(bins: array<int>, order: array<int>)
    requires bins != order
    requires bins.Length <= order.Length
    requires NonNegative(bins[..])
    modifies order
    ensures bins[..] == old(bins[..])
    ensures order[..bins.Length] == Argsort(bins[..])
    ensures IsStableArgsort(bins[..], order[..bins.Length])
    ensures order[bins.Length..] == old(order[bins.Length..])
  {
    var nBins := InitOrder(bins, order);
    var counts := CountBins(bins, nBins);
    AccumulateCounts(counts);
    TallyRunningSums(bins[..], nBins + 1);
    var starts := counts;
    Scatter(bins, order, starts, nBins);
  }

  /** The call the caller makes: copy the bins into an array, hand over a
      zeroed `order` array of the same length, and read the result back. */
  method ApproxOrder(bins: seq<int>) returns (order: seq<int>)
    requires NonNegative(bins)
    ensures order == Argsort(bins)
    ensures IsStableArgsort(bins, order)
  {
    var binsArray := new int[|bins|](k requires 0 <= k < |bins| => bins[k]);
    var orderArray := new int[|bins|](_ => 0);
    assert binsArray[..] == bins;
    Approx(binsArray, orderArray);
    order := orderArray[..];
    assert order == orderArray[..binsArray.Length];
  }

  /** The kernel's own test cases (binsort.py lines 71-74), made through the
      call the test makes. */
  method ApproxSorted(bins: seq<int>) returns (order: seq<int>)
    requires bins == [0, 1, 2, 3, 4]
    ensures order == [0, 1, 2, 3, 4]
  {
    ScenarioSorted(bins);
    order := ApproxOrder(bins);
  }

  method ApproxReversed(bins: seq<int>) returns (order: seq<int>)
    requires bins == [4, 3, 2, 1, 0]
    ensures order == [4, 3, 2, 1, 0]
  {
    ScenarioReversed(bins);
    order := ApproxOrder(bins);
  }

  method ApproxReversedWide(bins: seq<int>) returns (order: seq<int>)
    requires bins == [40, 30, 20, 10, 0]
    ensures order == [4, 3, 2, 1, 0]
  {
    ScenarioReversedWide(bins);
    order := ApproxOrder(bins);
  }

  method ApproxPairs(bins: seq<int>) returns (order: seq<int>)
    requires bins == [0, 0, 2, 2, 1, 1]
    ensures order == [0, 1, 4, 5, 2, 3]
  {
    ScenarioPairs(bins);
    order := ApproxOrder(bins);
  }
}
