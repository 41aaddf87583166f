/** `w_histogram` and the evenly spaced bin edges `loglikelihood` builds
    when it is given a number of bins. A pair (nu, luminosity) lands in bin
    `k` when `edges[k] <= nu < edges[k + 1]` for the sorted edges. */
module Histogram {
  import opened Basics
  import opened Parameters

  /** One (nu, luminosity) pair. */
  type Pair = (real, real)

  predicate Sorted(s: seq<real>) {
    forall i, j :: 0 <= i < j < |s| ==> s[i] <= s[j]
  }

  /** The head of an ascending sequence is at most each of its elements. */
  lemma HeadIsLeast(s: seq<real>, y: real)
    requires Sorted(s) && y in s
    ensures s[0] <= y
  {
    var j :| 0 <= j < |s| && s[j] == y;
    assert s[0] <= s[j];
  }

  lemma TailSorted(s: seq<real>)
    requires Sorted(s) && 0 < |s|
    ensures Sorted(s[1..])
  {
    forall i, j | 0 <= i < j < |s| - 1
      ensures s[1..][i] <= s[1..][j]
    {
      assert s[1..][i] == s[i + 1] && s[1..][j] == s[j + 1];
    }
  }

  /** Insert `x` into a sorted sequence. */
  function Insert(x: real, s: seq<real>): (r: seq<real>)
    requires Sorted(s)
    ensures Sorted(r) && multiset(r) == multiset(s) + multiset{x} && |r| == |s| + 1
    decreases |s|, 1
  {
    if |s| == 0 then [x]
    else if x <= s[0] then [x] + s
    else
      InsertAboveHead(x, s);
      [s[0]] + Insert(x, s[1..])
  }

  /** Inserting a value above the head into the tail and putting the head
      back in front gives an ascending sequence with one more element. */
  lemma InsertAboveHead(x: real, s: seq<real>)
    requires Sorted(s) && 0 < |s| && s[0] < x
    ensures Sorted(s[1..])
    ensures Sorted([s[0]] + Insert(x, s[1..]))
    ensures multiset([s[0]] + Insert(x, s[1..])) == multiset(s) + multiset{x}
    decreases |s|, 0
  {
    TailSorted(s);
    var rest := Insert(x, s[1..]);
    forall k | 0 <= k < |rest|
      ensures s[0] <= rest[k]
    {
      HeadBelowInserted(x, s, rest, rest[k]);
    }
    ConsSorted(s[0], rest);
    assert s == [s[0]] + s[1..];
  }

  /** Every element of the tail with `x` inserted is at least the head. */
  lemma HeadBelowInserted(x: real, s: seq<real>, rest: seq<real>, y: real)
    requires Sorted(s) && 0 < |s| && s[0] < x
    requires multiset(rest) == multiset(s[1..]) + multiset{x} && y in rest
    ensures s[0] <= y
  {
    assert y in multiset(rest);
    if y != x {
      assert y in multiset(s[1..]);
      assert y in s;
      HeadIsLeast(s, y);
    }
  }

  /** A value at most every element of an ascending sequence can go in front. */
  lemma ConsSorted(h: real, rest: seq<real>)
    requires Sorted(rest) && forall k :: 0 <= k < |rest| ==> h <= rest[k]
    ensures Sorted([h] + rest)
  {
    var r := [h] + rest;
    forall i, j | 0 <= i < j < |r|
      ensures r[i] <= r[j]
    {
      assert r[j] == rest[j - 1];
      if 0 < i {
        assert r[i] == rest[i - 1];
      }
    }
  }

  /** Python's `sorted`: an ascending rearrangement of `s`. */
  function Sort(s: seq<real>): (r: seq<real>)
    ensures Sorted(r) && multiset(r) == multiset(s) && |r| == |s|
    decreases |s|
  {
    if |s| == 0 then []
    else
      assert s == [s[0]] + s[1..];
      Insert(s[0], Sort(s[1..]))
  }

  /** Two ascending sequences with the same elements are equal, so the
      sorted edges depend only on the multiset of frequencies given. */
  lemma {:induction false} SortedUnique(a: seq<real>, b: seq<real>)
    requires Sorted(a) && Sorted(b) && multiset(a) == multiset(b)
    ensures a == b
    decreases |a|
  {
    assert |a| == |multiset(a)| == |multiset(b)| == |b|;
    if |a| > 0 {
      SameHead(a, b);
      TailMultiset(a);
      TailMultiset(b);
      TailSorted(a);
      TailSorted(b);
      SortedUnique(a[1..], b[1..]);
      assert a == [a[0]] + a[1..] && b == [b[0]] + b[1..];
    }
  }

  /** Two non-empty ascending sequences with the same elements start alike. */
  lemma SameHead(a: seq<real>, b: seq<real>)
    requires Sorted(a) && Sorted(b) && multiset(a) == multiset(b) && 0 < |a| && 0 < |b|
    ensures a[0] == b[0]
  {
    assert a[0] in multiset(b) && b[0] in multiset(a);
    HeadIsLeast(b, a[0]);
    HeadIsLeast(a, b[0]);
  }

  lemma TailMultiset(s: seq<real>)
    requires 0 < |s|
    ensures multiset(s[1..]) == multiset(s) - multiset{s[0]}
  {
    assert s == [s[0]] + s[1..];
  }

  /** Python's `zip`: pairs up to the shorter of the two sequences. */
  function Zip(nus: seq<real>, lums: seq<real>): (pairs: seq<Pair>)
    ensures |pairs| == if |nus| <= |lums| then |nus| else |lums|
    ensures forall m :: 0 <= m < |pairs| ==> pairs[m] == (nus[m], lums[m])
  {
    var len := if |nus| <= |lums| then |nus| else |lums|;
    seq(len, m requires 0 <= m < len => (nus[m], lums[m]))
  }

  /** The pairs whose nu lies in `[lo, hi)`, in input order. */
  function BinPairs(pairs: seq<Pair>, lo: real, hi: real): (r: seq<Pair>)
    ensures |r| <= |pairs|
    decreases |pairs|
  {
    if |pairs| == 0 then []
    else BinPairs(pairs[..|pairs| - 1], lo, hi) + (if lo <= pairs[|pairs| - 1].0 < hi then [pairs[|pairs| - 1]] else [])
  }

  /** A pair is in the bin `[lo, hi)` exactly when it is one of the pairs and
      its nu lies in the interval. */
  lemma {:induction false} BinPairsMembers(pairs: seq<Pair>, lo: real, hi: real, p: Pair)
    ensures p in BinPairs(pairs, lo, hi) <==> p in pairs && lo <= p.0 < hi
    decreases |pairs|
  {
    if |pairs| > 0 {
      var init := pairs[..|pairs| - 1];
      assert pairs == init + [pairs[|pairs| - 1]];
      BinPairsMembers(init, lo, hi, p);
    }
  }

  /** One bin per pair of neighbouring edges. */
  function BinsOf(pairs: seq<Pair>, edges: seq<real>): (bins: seq<seq<Pair>>)
    ensures |bins| == if |edges| == 0 then 0 else |edges| - 1
  {
    var count := if |edges| == 0 then 0 else |edges| - 1;
    seq(count, k requires 0 <= k < count => BinPairs(pairs, edges[k], edges[k + 1]))
  }

  /** The bins `w_histogram` fills, as pairs. */
  function Histogram(nus: seq<real>, lums: seq<real>, frequencies: seq<real>): (bins: seq<seq<Pair>>)
    ensures |bins| == if |frequencies| == 0 then 0 else |frequencies| - 1
  {
    BinsOf(Zip(nus, lums), Sort(frequencies))
  }

  /** The nu of every pair. */
  function Nus(pairs: seq<Pair>): (r: seq<real>)
    ensures |r| == |pairs| && forall m :: 0 <= m < |r| ==> r[m] == pairs[m].0
  {
    seq(|pairs|, m requires 0 <= m < |pairs| => pairs[m].0)
  }

  /** The luminosity of every pair. */
  function Lums(pairs: seq<Pair>): (r: seq<real>)
    ensures |r| == |pairs| && forall m :: 0 <= m < |r| ==> r[m] == pairs[m].1
  {
    seq(|pairs|, m requires 0 <= m < |pairs| => pairs[m].1)
  }

  /** The bin of one more pair of the input. */
  lemma BinPairsPrefix(pairs: seq<Pair>, lo: real, hi: real, m: nat)
    requires m < |pairs|
    ensures BinPairs(pairs[..m + 1], lo, hi) ==
            BinPairs(pairs[..m], lo, hi) + (if lo <= pairs[m].0 < hi then [pairs[m]] else [])
  {
    assert pairs[..m + 1][..m] == pairs[..m];
  }

  lemma ProjectionsAppend(a: seq<Pair>, b: seq<Pair>)
    ensures Nus(a + b) == Nus(a) + Nus(b) && Lums(a + b) == Lums(a) + Lums(b)
  {
  }

  /** The inner loop of `w_histogram` for one bin: append, in input order,
      every pair whose nu lies in `[lo, hi)`. */
  method FillBin(pairs: seq<Pair>, lo: real, hi: real) returns (nuBin: seq<real>, luminosityBin: seq<real>)
    ensures nuBin == Nus(BinPairs(pairs, lo, hi)) && luminosityBin == Lums(BinPairs(pairs, lo, hi))
  {
    nuBin, luminosityBin := [], [];
    var m := 0;
    while m < |pairs|
      invariant 0 <= m <= |pairs|
      invariant nuBin == Nus(BinPairs(pairs[..m], lo, hi)) && luminosityBin == Lums(BinPairs(pairs[..m], lo, hi))
    {
      var (nu, luminosity) := pairs[m];
      var hit := if lo <= nu < hi then [pairs[m]] else [];
      BinPairsPrefix(pairs, lo, hi, m);
      ProjectionsAppend(BinPairs(pairs[..m], lo, hi), hit);
      if nu >= lo && nu < hi {
        nuBin := nuBin + [nu];
        luminosityBin := luminosityBin + [luminosity];
      }
      m := m + 1;
    }
    assert pairs[..m] == pairs;
  }

  /** `w_histogram`: the nus and the luminosities of each bin, in two
      parallel lists, one entry per bin. */
  method WHistogram(nus: seq<real>, luminosities: seq<real>, frequencies: seq<real>)
    returns (nuBins: seq<seq<real>>, luminosityBins: seq<seq<real>>)
    ensures var h := Histogram(nus, luminosities, frequencies);
            && |nuBins| == |h| && |luminosityBins| == |h|
            && forall k :: 0 <= k < |h| ==> nuBins[k] == Nus(h[k]) && luminosityBins[k] == Lums(h[k])
  {
    var edges := Sort(frequencies);
    var count := if |edges| == 0 then 0 else |edges| - 1;
    ghost var h := Histogram(nus, luminosities, frequencies);
    var pairs := Zip(nus, luminosities);
    nuBins := seq(count, _ => []);
    luminosityBins := seq(count, _ => []);
    var index := 0;
    while index < count
      invariant 0 <= index <= count && |nuBins| == count && |luminosityBins| == count
      invariant forall k :: 0 <= k < index ==> nuBins[k] == Nus(h[k]) && luminosityBins[k] == Lums(h[k])
      invariant forall k :: index <= k < count ==> nuBins[k] == [] && luminosityBins[k] == []
    {
      var nuBin, luminosityBin := FillBin(pairs, edges[index], edges[index + 1]);
      assert h[index] == BinPairs(pairs, edges[index], edges[index + 1]);
      nuBins := nuBins[index := nuBin];
      luminosityBins := luminosityBins[index := luminosityBin];
      index := index + 1;
    }
  }

  /** Bins pair up: the two lists of a bin have the same length and the
      m-th nu and luminosity of a bin come from the same input position. */
  lemma BinsStayPaired(nus: seq<real>, lums: seq<real>, frequencies: seq<real>, k: nat, m: nat)
    requires k < |Histogram(nus, lums, frequencies)| && m < |Histogram(nus, lums, frequencies)[k]|
    ensures var bin := Histogram(nus, lums, frequencies)[k];
            exists q :: 0 <= q < |nus| && q < |lums| && Nus(bin)[m] == nus[q] && Lums(bin)[m] == lums[q]
  {
    var pairs := Zip(nus, lums);
    var edges := Sort(frequencies);
    var bin := Histogram(nus, lums, frequencies)[k];
    assert bin == BinPairs(pairs, edges[k], edges[k + 1]);
    BinPairsMembers(pairs, edges[k], edges[k + 1], bin[m]);
    assert bin[m] in pairs;
    var q :| 0 <= q < |pairs| && pairs[q] == bin[m];
    assert Nus(bin)[m] == nus[q] && Lums(bin)[m] == lums[q];
  }

  /** Half-open membership: a pair is in bin `k` exactly when it is one of
      the zipped pairs and its nu lies in `[edges[k], edges[k + 1])` for the
      sorted edges. */
  lemma BinMembership(nus: seq<real>, lums: seq<real>, frequencies: seq<real>, k: nat, p: Pair)
    requires k < |Histogram(nus, lums, frequencies)|
    ensures var edges := Sort(frequencies);
            p in Histogram(nus, lums, frequencies)[k] <==> p in Zip(nus, lums) && edges[k] <= p.0 < edges[k + 1]
  {
    var edges := Sort(frequencies);
    assert Histogram(nus, lums, frequencies)[k] == BinPairs(Zip(nus, lums), edges[k], edges[k + 1]);
    BinPairsMembers(Zip(nus, lums), edges[k], edges[k + 1], p);
  }

  /** The result depends on the frequencies only through their multiset:
      reordering the edges gives the same bins. */
  lemma EdgeOrderIrrelevant(nus: seq<real>, lums: seq<real>, f1: seq<real>, f2: seq<real>)
    requires multiset(f1) == multiset(f2)
    ensures Histogram(nus, lums, f1) == Histogram(nus, lums, f2)
  {
    SortedUnique(Sort(f1), Sort(f2));
  }

  /** With sorted edges, a pair is in at most one bin (bin `k` being
      `BinsOf(pairs, edges)[k]`). */
  lemma AtMostOneBin(pairs: seq<Pair>, edges: seq<real>, p: Pair, k1: nat, k2: nat)
    requires Sorted(edges) && k1 < k2 < |edges| - 1
    ensures !(p in BinPairs(pairs, edges[k1], edges[k1 + 1]) && p in BinPairs(pairs, edges[k2], edges[k2 + 1]))
  {
    BinPairsMembers(pairs, edges[k1], edges[k1 + 1], p);
    BinPairsMembers(pairs, edges[k2], edges[k2 + 1], p);
    assert edges[k1 + 1] <= edges[k2];
  }

  /** Values below the smallest edge or at or above the largest edge are in
      no bin. */
  lemma OutsideEdgesDropped(pairs: seq<Pair>, edges: seq<real>, p: Pair)
    requires Sorted(edges) && 0 < |edges| && (p.0 < edges[0] || edges[|edges| - 1] <= p.0)
    ensures forall k :: 0 <= k < |BinsOf(pairs, edges)| ==> p !in BinsOf(pairs, edges)[k]
  {
    forall k | 0 <= k < |BinsOf(pairs, edges)|
      ensures p !in BinsOf(pairs, edges)[k]
    {
      OutsideOneBin(pairs, edges, p, k);
    }
  }

  lemma OutsideOneBin(pairs: seq<Pair>, edges: seq<real>, p: Pair, k: nat)
    requires Sorted(edges) && k + 1 < |edges| && (p.0 < edges[0] || edges[|edges| - 1] <= p.0)
    ensures p !in BinsOf(pairs, edges)[k]
  {
    assert BinsOf(pairs, edges)[k] == BinPairs(pairs, edges[k], edges[k + 1]);
    BinPairsMembers(pairs, edges[k], edges[k + 1], p);
    assert edges[0] <= edges[k] && edges[k + 1] <= edges[|edges| - 1];
  }

  /** Number of bins whose half-open interval holds `v`. */
  function Hits(edges: seq<real>, v: real): nat
    decreases |edges|
  {
    if |edges| < 2 then 0
    else Hits(edges[..|edges| - 1], v) + (if edges[|edges| - 2] <= v < edges[|edges| - 1] then 1 else 0)
  }

  /** At or above the last sorted edge no bin is hit. */
  lemma {:induction false} NoHitsAbove(edges: seq<real>, v: real)
    requires Sorted(edges) && 0 < |edges| && edges[|edges| - 1] <= v
    ensures Hits(edges, v) == 0
    decreases |edges|
  {
    if 2 <= |edges| {
      NoHitsAbove(edges[..|edges| - 1], v);
    }
  }

  /** With sorted edges, a value hits at most one bin. */
  lemma {:induction false} HitsAtMostOne(edges: seq<real>, v: real)
    requires Sorted(edges)
    ensures Hits(edges, v) <= 1
    decreases |edges|
  {
    if 2 <= |edges| {
      var init := edges[..|edges| - 1];
      if edges[|edges| - 2] <= v {
        NoHitsAbove(init, v);
      } else {
        HitsAtMostOne(init, v);
      }
    }
  }

  /** Total number of items over all bins. */
  function TotalItems(bins: seq<seq<Pair>>): nat
    decreases |bins|
  {
    if |bins| == 0 then 0 else TotalItems(bins[..|bins| - 1]) + |bins[|bins| - 1]|
  }

  /** Appending one pair adds it to every bin it hits. */
  lemma {:induction false} TotalItemsGrows(pairs: seq<Pair>, p: Pair, edges: seq<real>)
    ensures TotalItems(BinsOf(pairs + [p], edges)) == TotalItems(BinsOf(pairs, edges)) + Hits(edges, p.0)
    decreases |edges|
  {
    var extended := pairs + [p];
    assert extended[..|extended| - 1] == pairs;
    if 2 <= |edges| {
      var init := edges[..|edges| - 1];
      TotalItemsGrows(pairs, p, init);
      assert BinsOf(extended, edges)[..|edges| - 2] == BinsOf(extended, init);
      assert BinsOf(pairs, edges)[..|edges| - 2] == BinsOf(pairs, init);
    } else {
      assert BinsOf(extended, edges) == [] == BinsOf(pairs, edges);
    }
  }

  /** With sorted edges, the bins hold at most as many items as there are
      pairs. */
  lemma {:induction false} TotalItemsBounded(pairs: seq<Pair>, edges: seq<real>)
    requires Sorted(edges)
    ensures TotalItems(BinsOf(pairs, edges)) <= |pairs|
    decreases |pairs|
  {
    if |pairs| == 0 {
      assert forall k :: 0 <= k < |BinsOf(pairs, edges)| ==> BinsOf(pairs, edges)[k] == [];
      EmptyBinsHoldNothing(BinsOf(pairs, edges));
    } else {
      var init := pairs[..|pairs| - 1];
      assert pairs == init + [pairs[|pairs| - 1]];
      TotalItemsBounded(init, edges);
      TotalItemsGrows(init, pairs[|pairs| - 1], edges);
      HitsAtMostOne(edges, pairs[|pairs| - 1].0);
    }
  }

  lemma {:induction false} EmptyBinsHoldNothing(bins: seq<seq<Pair>>)
    requires forall k :: 0 <= k < |bins| ==> bins[k] == []
    ensures TotalItems(bins) == 0
    decreases |bins|
  {
    if |bins| > 0 {
      EmptyBinsHoldNothing(bins[..|bins| - 1]);
    }
  }

  /** `w_histogram` places at most `min(len(nus), len(luminosities))` items
      in all. */
  lemma HistogramTotalBounded(nus: seq<real>, lums: seq<real>, frequencies: seq<real>)
    ensures TotalItems(Histogram(nus, lums, frequencies)) <= |nus| && TotalItems(Histogram(nus, lums, frequencies)) <= |lums|
  {
    TotalItemsBounded(Zip(nus, lums), Sort(frequencies));
  }

  /** Python's `min` of a non-empty list. */
  function Min(s: seq<real>): (m: real)
    requires 0 < |s|
    ensures m in s && forall k :: 0 <= k < |s| ==> m <= s[k]
    decreases |s|
  {
    if |s| == 1 then s[0]
    else
      var rest := Min(s[1..]);
      assert forall k :: 1 <= k < |s| ==> s[k] == s[1..][k - 1];
      if s[0] <= rest then s[0] else rest
  }

  /** Python's `max` of a non-empty list. */
  function Max(s: seq<real>): (m: real)
    requires 0 < |s|
    ensures m in s && forall k :: 0 <= k < |s| ==> s[k] <= m
    decreases |s|
  {
    if |s| == 1 then s[0]
    else
      var rest := Max(s[1..]);
      assert forall k :: 1 <= k < |s| ==> s[k] == s[1..][k - 1];
      if rest <= s[0] then s[0] else rest
  }

  /** The `bins` argument of `loglikelihood`: a number of bins, or the edges
      themselves. */
  datatype BinSpec = Count(bins: int) | Boundaries(edges: seq<real>)

  /** The `i`-th of the edges starting at `a` with spacing `step`. */
  function Edge(a: real, step: real, i: nat): real {
    a + step * (i as real)
  }

  /** With a non-negative spacing, a later edge is no smaller. */
  lemma StepMonotone(a: real, step: real, i: nat, j: nat)
    requires 0.0 <= step && i <= j
    ensures Edge(a, step, i) <= Edge(a, step, j)
  {
    assert step * (j as real) - step * (i as real) == step * ((j - i) as real);
  }

  /** The edges `loglikelihood` passes to `w_histogram`: given a number of
      bins, `bins + 1` evenly spaced edges from `min(nus1)` to `max(nus1)`;
      `min` of an empty list raises ValueError, and zero bins divide by zero. */
  function BinEdges(nus1: seq<real>, spec: BinSpec): (r: Result<seq<real>>)
    ensures spec.Boundaries? ==> r == Ok(spec.edges)
    ensures spec.Count? ==> (r.Err? <==> |nus1| == 0 || spec.bins == 0)
    ensures spec.Count? && |nus1| == 0 ==> r == Err(ValueError("min() arg is an empty sequence"))
    ensures spec.Count? && 0 < |nus1| && spec.bins == 0 ==> r == Err(ZeroDivisionError)
    ensures spec.Count? && r.Ok? ==> |r.value| == (if spec.bins < 0 then 0 else spec.bins + 1) && Sorted(r.value)
    ensures spec.Count? && r.Ok? && 0 < spec.bins ==> r.value[0] == Min(nus1) && r.value[spec.bins] == Max(nus1)
    ensures spec.Count? && r.Ok? ==>
              forall i :: 0 <= i < spec.bins ==> r.value[i + 1] - r.value[i] == (Max(nus1) - Min(nus1)) / (spec.bins as real)
  {
    match spec
    case Boundaries(edges) => Ok(edges)
    case Count(bins) =>
      if |nus1| == 0 then Err(ValueError("min() arg is an empty sequence"))
      else if bins == 0 then Err(ZeroDivisionError)
      else if bins < 0 then Ok([])
      else
        Ok(EvenEdges(Min(nus1), Max(nus1), bins))
  }

  /** `[a + (b - a) / float(bins) * i for i in range(bins + 1)]`: from `a`
      to `b` in equal ascending steps. */
  function EvenEdges(a: real, b: real, bins: nat): (edges: seq<real>)
    requires 0 < bins && a <= b
    ensures |edges| == bins + 1 && Sorted(edges)
    ensures edges[0] == a && edges[bins] == b
    ensures forall i :: 0 <= i < bins ==> edges[i + 1] - edges[i] == (b - a) / (bins as real)
  {
    var step := Share(b - a, bins as real);
    assert 0.0 <= step by {
      PositiveOrZeroFactor(step, bins as real);
    }
    var edges := seq(bins + 1, i requires 0 <= i < bins + 1 => Edge(a, step, i));
    assert Sorted(edges) by {
      forall i, j | 0 <= i < j < |edges|
        ensures edges[i] <= edges[j]
      {
        StepMonotone(a, step, i, j);
      }
    }
    edges
  }

  /** A factor is non-negative when its product with a positive number is. */
  lemma PositiveOrZeroFactor(a: real, b: real)
    requires 0.0 < b && 0.0 <= a * b
    ensures 0.0 <= a
  {
  }

  /** With a positive number of bins, points equal to `max(nus1)` fall in no
      bin of their own spectrum's histogram. */
  lemma MaxInNoBin(nus1: seq<real>, lums1: seq<real>, bins: int, p: Pair)
    requires 0 < |nus1| && 0 < bins && p.0 == Max(nus1)
    ensures BinEdges(nus1, Count(bins)).Ok?
    ensures var h := Histogram(nus1, lums1, BinEdges(nus1, Count(bins)).value);
            forall k :: 0 <= k < |h| ==> p !in h[k]
  {
    var edges := BinEdges(nus1, Count(bins)).value;
    SortedUnique(Sort(edges), edges);
    OutsideEdgesDropped(Zip(nus1, lums1), edges, p);
  }
}
