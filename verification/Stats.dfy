/** The summary statistics the analyzer prints. */
module Stats {
  import opened Text

  predicate Sorted(xs: seq<int>) {
    forall i, j :: 0 <= i <= j < |xs| ==> xs[i] <= xs[j]
  }

  function Insert(x: int, xs: seq<int>): seq<int> {
    if xs == [] || x <= xs[0] then [x] + xs else [xs[0]] + Insert(x, xs[1..])
  }

  /** Python's `sorted`. */
  function Sort(xs: seq<int>): seq<int> {
    if xs == [] then [] else Insert(xs[0], Sort(xs[1..]))
  }

  lemma {:induction false} InsertSorts(x: int, xs: seq<int>)
    requires Sorted(xs)
    ensures Sorted(Insert(x, xs)) && multiset(Insert(x, xs)) == multiset{x} + multiset(xs)
  {
    if xs != [] && x > xs[0] {
      InsertSorts(x, xs[1..]);
      assert xs == [xs[0]] + xs[1..];
      var rest := Insert(x, xs[1..]);
      forall k | 0 <= k < |rest| ensures xs[0] <= rest[k] {
        assert rest[k] in multiset(rest);
        assert rest[k] == x || rest[k] in xs[1..];
      }
    }
  }

  lemma {:induction false} SortSorts(xs: seq<int>)
    ensures Sorted(Sort(xs)) && multiset(Sort(xs)) == multiset(xs) && |Sort(xs)| == |xs|
  {
    if xs != [] {
      SortSorts(xs[1..]);
      InsertSorts(xs[0], Sort(xs[1..]));
      assert xs == [xs[0]] + xs[1..];
    }
    assert |Sort(xs)| == |multiset(Sort(xs))| == |multiset(xs)| == |xs|;
  }

  /** `max(0, int(n * 0.95) - 1)`. */
  function P95Index(n: nat): nat {
    var k := n * 95 / 100;
    if k == 0 then 0 else k - 1
  }

  /** Twice the median, which is a whole number. */
  function TwiceMedian(sorted: seq<int>): int
    requires sorted != []
  {
    var n := |sorted|;
    sorted[(n - 1) / 2] + sorted[n / 2]
  }

  datatype Summary = Summary(n: nat, twiceMedian: int, p95: int, min: int, max: int)

  function Summarize(values: seq<int>): Option<Summary> {
    if values == [] then None
    else
      SortSorts(values);
      var sorted := Sort(values);
      var n := |sorted|;
      Some(Summary(n, TwiceMedian(sorted), sorted[P95Index(n)], sorted[0], sorted[n - 1]))
  }

  function CountAtMost(xs: seq<int>, bound: int): nat {
    if xs == [] then 0
    else CountAtMost(xs[..|xs| - 1], bound) + (if xs[|xs| - 1] <= bound then 1 else 0)
  }

  lemma {:induction false} CountByMultiset(xs: seq<int>, ys: seq<int>, bound: int)
    requires multiset(xs) == multiset(ys)
    ensures CountAtMost(xs, bound) == CountAtMost(ys, bound)
    decreases |xs|
  {
    assert |multiset(xs)| == |xs| && |multiset(ys)| == |ys|;
    if xs != [] {
      var n := |xs| - 1;
      assert xs == xs[..n] + [xs[n]];
      assert xs[n] in multiset(ys);
      var k :| 0 <= k < |ys| && ys[k] == xs[n];
      var front := ys[..k] + ys[k + 1..];
      assert ys == ys[..k] + [ys[k]] + ys[k + 1..];
      assert multiset(xs[..n]) == multiset(xs) - multiset{xs[n]};
      assert multiset(front) == multiset(ys) - multiset{ys[k]};
      CountByMultiset(xs[..n], front, bound);
      CountAppend(ys[..k], ys[k + 1..], bound);
      CountAppend(ys[..k], [ys[k]], bound);
      CountAppend(ys[..k] + [ys[k]], ys[k + 1..], bound);
    }
  }

  lemma {:induction false} CountAppend(xs: seq<int>, ys: seq<int>, bound: int)
    ensures CountAtMost(xs + ys, bound) == CountAtMost(xs, bound) + CountAtMost(ys, bound)
  {
    if ys == [] {
      assert xs + ys == xs;
    } else {
      assert (xs + ys)[..|xs| + |ys| - 1] == xs + ys[..|ys| - 1];
      CountAppend(xs, ys[..|ys| - 1], bound);
    }
  }

  lemma {:induction false} CountPrefix(xs: seq<int>, k: nat, bound: int)
    requires k <= |xs| && forall i :: 0 <= i < k ==> xs[i] <= bound
    ensures CountAtMost(xs, bound) >= k
  {
    if xs != [] {
      var n := |xs| - 1;
      CountPrefix(xs[..n], if k <= n then k else n, bound);
    }
  }

  lemma SameSamples(values: seq<int>)
    ensures forall v :: v in values <==> v in Sort(values)
  {
    SortSorts(values);
    forall v ensures v in values <==> v in Sort(values) {
      assert v in multiset(values) <==> v in multiset(Sort(values));
    }
  }

  lemma IndexPastMedian(n: nat)
    requires n > 0
    ensures P95Index(n) < n && P95Index(n) + 1 >= n * 95 / 100
    ensures n != 2 ==> n / 2 <= P95Index(n)
    ensures n == 2 ==> P95Index(n) == 0
  {
  }

  lemma PairMedian(values: seq<int>)
    requires |values| == 2
    ensures var s := Sort(values);
            |s| == 2 && (2 * s[0] >= s[0] + s[1] <==> values[0] == values[1])
  {
    var a, b := values[0], values[1];
    assert values[1..] == [b] && [b][1..] == [];
    assert Sort([b]) == Insert(b, []) == [b];
    assert Insert(a, [b]) == if a <= b then [a, b] else [b] + Insert(a, [b][1..]);
  }

  lemma RankOf(values: seq<int>, k: nat)
    requires k < |values|
    ensures |Sort(values)| == |values| && CountAtMost(values, Sort(values)[k]) >= k + 1
  {
    SortSorts(values);
    CountPrefix(Sort(values), k + 1, Sort(values)[k]);
    CountByMultiset(Sort(values), values, Sort(values)[k]);
  }

  /** The reported p95 of any non-empty sample: at least 95 percent of the samples,
      rounded down, and at least one, do not exceed it; it is a sample between
      the minimum and the maximum; and, except for two different samples, it is
      not below the median. */
  lemma P95Rank(values: seq<int>)
    requires values != []
    ensures var s := Summarize(values).value;
            && s.n == |values|
            && CountAtMost(values, s.p95) >= |values| * 95 / 100
            && CountAtMost(values, s.p95) >= 1
            && s.p95 in values && s.min in values && s.max in values
            && (forall v :: v in values ==> s.min <= v <= s.max)
            && (2 * s.p95 >= s.twiceMedian <==> !(|values| == 2 && values[0] != values[1]))
  {
    SortSorts(values);
    SameSamples(values);
    IndexPastMedian(|values|);
    RankOf(values, P95Index(|values|));
    if |values| == 2 {
      PairMedian(values);
    }
  }

  // ------------------------------------------------------------------- ranks

  /** `v` is the `k`-th smallest sample: the least that `k` samples do not exceed. */
  predicate IsRank(values: seq<int>, v: int, k: nat) {
    && v in values
    && CountAtMost(values, v) >= k
    && forall w :: w in values && w < v ==> CountAtMost(values, w) < k
  }

  lemma {:induction false} CountSuffix(xs: seq<int>, k: nat, bound: int)
    requires forall i :: k <= i < |xs| ==> xs[i] > bound
    ensures CountAtMost(xs, bound) <= k
  {
    if xs != [] {
      var n := |xs| - 1;
      CountSuffix(xs[..n], if k <= n then k else n, bound);
    }
  }

  lemma SortedRank(values: seq<int>, k: nat)
    requires 1 <= k <= |values|
    ensures |Sort(values)| == |values| && IsRank(values, Sort(values)[k - 1], k)
  {
    SortSorts(values);
    SameSamples(values);
    RankOf(values, k - 1);
    var s := Sort(values);
    assert s[k - 1] in s;
    forall w | w in values && w < s[k - 1] ensures CountAtMost(values, w) < k {
      CountSuffix(s, k - 1, w);
      CountByMultiset(s, values, w);
    }
  }

  /** There is only one sample of each rank. */
  lemma RankIsUnique(values: seq<int>, v: int, w: int, k: nat)
    requires IsRank(values, v, k) && IsRank(values, w, k)
    ensures v == w
  {
  }

  /** `lower` and the rest of `m` are the samples of the two middle ranks. */
  predicate Halves(values: seq<int>, m: int, lower: int) {
    IsRank(values, lower, (|values| + 1) / 2) && IsRank(values, m - lower, |values| / 2 + 1)
  }

  /** Twice the value halfway between the samples of the two middle ranks. */
  ghost predicate IsTwiceMedian(values: seq<int>, m: int) {
    exists lower :: Halves(values, m, lower)
  }

  lemma MedianRanks(values: seq<int>)
    requires values != []
    ensures IsTwiceMedian(values, Summarize(values).value.twiceMedian)
  {
    var n, sorted := |values|, Sort(values);
    SortSorts(values);
    SortedRank(values, (n + 1) / 2);
    SortedRank(values, n / 2 + 1);
    var m, lower := TwiceMedian(sorted), sorted[(n - 1) / 2];
    assert (n + 1) / 2 - 1 == (n - 1) / 2;
    assert Halves(values, m, lower);
  }

  function P95RankOf(n: nat): nat {
    if n * 95 / 100 > 1 then n * 95 / 100 else 1
  }

  lemma P95IsRank(values: seq<int>)
    requires values != []
    ensures IsRank(values, Summarize(values).value.p95, P95RankOf(|values|))
  {
    SortedRank(values, P95RankOf(|values|));
    assert P95RankOf(|values|) - 1 == P95Index(|values|);
  }

  /** Every number of a summary by its rank, for any non-empty sample of `n`: the p95
      has rank floor(95n/100), or 1; the minimum 1 and the maximum `n`; and the median
      is halfway between the samples of the two middle ranks. */
  lemma SummaryRanks(values: seq<int>)
    requires values != []
    ensures var s := Summarize(values).value;
            && s.n == |values|
            && IsRank(values, s.p95, P95RankOf(|values|))
            && IsRank(values, s.min, 1) && IsRank(values, s.max, |values|)
            && IsTwiceMedian(values, s.twiceMedian)
  {
    P95IsRank(values);
    SortedRank(values, 1);
    SortedRank(values, |values|);
    MedianRanks(values);
  }
}
