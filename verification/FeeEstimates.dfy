/** Waiting longer never costs more: the estimates fall with the number of blocks, whatever the bins hold. */
module FeeEstimates {
  import opened Codec
  import opened Lists
  import opened FeeBins

  ghost predicate Descending(rates: seq<u64>)
  {
    forall i, j | 0 <= i < j < |rates| :: rates[i] >= rates[j]
  }

  lemma {:induction false} InsertAdds(rates: seq<u64>, x: u64)
    ensures multiset(InsertRate(rates, x)) == multiset(rates) + multiset{x}
  {
    if rates != [] {
      assert rates == [rates[0]] + rates[1..];
      if rates[0] >= x { InsertAdds(rates[1..], x); }
    }
  }

  lemma {:induction false} InsertDescends(rates: seq<u64>, x: u64)
    requires Descending(rates)
    ensures Descending(InsertRate(rates, x))
  {
    if rates != [] && rates[0] >= x {
      var rest := rates[1..];
      assert forall i | 0 <= i < |rest| :: rest[i] == rates[i + 1];
      InsertDescends(rest, x);
      InsertAdds(rest, x);
      var r := InsertRate(rest, x);
      forall i | 0 <= i < |r| ensures r[i] <= rates[0] {
        assert r[i] in multiset(r);
      }
    }
  }

  lemma {:induction false} SortDescends(rates: seq<u64>)
    ensures Descending(SortRates(rates)) && multiset(SortRates(rates)) == multiset(rates)
  {
    if rates != [] {
      assert rates == [rates[0]] + rates[1..];
      SortDescends(rates[1..]);
      InsertDescends(SortRates(rates[1..]), rates[0]);
      InsertAdds(SortRates(rates[1..]), rates[0]);
    }
  }

  /** The middle of a bin is not in front of the middle of any bin before it. */
  lemma {:induction false} IndexGrows(bins: seq<seq<Tx>>, c: nat, d: nat)
    requires 0 < c <= d <= |bins|
    ensures FeeIndex(bins, c) <= FeeIndex(bins, d)
    decreases d - c
  {
    if c < d {
      IndexGrows(bins, c + 1, d);
      assert Before(bins, c) == Before(bins, c - 1) + |bins[c - 1]|;
    }
  }

  lemma EstimatesDescend(bins: seq<seq<Tx>>)
    ensures Descending(Estimates(bins))
  {
    var sorted := SortRates(Rates(AllOf(bins)));
    SortDescends(Rates(AllOf(bins)));
    forall i, j | 0 <= i < j < |bins| ensures Estimates(bins)[i] >= Estimates(bins)[j] {
      IndexGrows(bins, i + 1, j + 1);
    }
  }

  /** Among the questions that are answered, asking for more blocks never raises the answer. */
  lemma EstimateNeverRises(s: Fees, limits: Limits, n: u64, m: u64)
    requires |s.bin| == estimateFeeDepth && n <= m
    requires Answer(s, limits, n).Fee? && Answer(s, limits, m).Fee?
    ensures Answer(s, limits, n).rate >= Answer(s, limits, m).rate
  {
    EstimatesDescend(s.bin);
    if n < m { assert Estimates(s.bin)[n - 1] >= Estimates(s.bin)[m - 1]; }
  }

  /** An estimate is a rate that some transaction in the bins really paid, or zero when there are none. */
  lemma EstimateIsPaid(bins: seq<seq<Tx>>, c: nat)
    requires 0 < c <= |bins|
    ensures var e := Estimates(bins)[c - 1];
      if AllOf(bins) == [] then e == 0 else exists o | o in AllOf(bins) :: o.feeRate == e
  {
    var rates := Rates(AllOf(bins));
    var sorted := SortRates(rates);
    SortDescends(rates);
    SameSize(sorted, rates);
    if AllOf(bins) != [] {
      var e := Estimates(bins)[c - 1];
      assert e in sorted;
      SameContents(sorted, rates, e);
      var i :| 0 <= i < |rates| && rates[i] == e;
      assert AllOf(bins)[i].feeRate == e;
    }
  }

  lemma SameSize(a: seq<u64>, b: seq<u64>)
    requires multiset(a) == multiset(b)
    ensures |a| == |b|
  {
    assert |multiset(a)| == |a| && |multiset(b)| == |b|;
  }

  lemma SameContents(a: seq<u64>, b: seq<u64>, x: u64)
    requires multiset(a) == multiset(b) && x in a
    ensures x in b
  {
    assert x in multiset(a);
  }

  // ---------- Which rate an estimate is ----------

  function CountRates(rates: seq<u64>, keep: u64 -> bool): nat
  {
    if rates == [] then 0 else (if keep(rates[0]) then 1 else 0) + CountRates(rates[1..], keep)
  }

  /** How many transactions of all bins have such a rate. */
  function CountIn(bins: seq<seq<Tx>>, keep: u64 -> bool): nat
  {
    if bins == [] then 0 else CountRates(Rates(bins[0]), keep) + CountIn(bins[1..], keep)
  }

  lemma {:induction false} CountJoin(a: seq<u64>, b: seq<u64>, keep: u64 -> bool)
    ensures CountRates(a + b, keep) == CountRates(a, keep) + CountRates(b, keep)
  {
    if a == [] {
      assert a + b == b;
    } else {
      assert (a + b)[1..] == a[1..] + b;
      CountJoin(a[1..], b, keep);
    }
  }

  lemma {:induction false} CountInserted(rates: seq<u64>, x: u64, keep: u64 -> bool)
    ensures CountRates(InsertRate(rates, x), keep) == CountRates(rates, keep) + if keep(x) then 1 else 0
  {
    if rates == [] {
      assert [x][1..] == [];
    } else if rates[0] < x {
      assert ([x] + rates)[1..] == rates;
    } else {
      CountInserted(rates[1..], x, keep);
      assert ([rates[0]] + InsertRate(rates[1..], x))[1..] == InsertRate(rates[1..], x);
    }
  }

  lemma {:induction false} CountSorted(rates: seq<u64>, keep: u64 -> bool)
    ensures CountRates(SortRates(rates), keep) == CountRates(rates, keep)
  {
    if rates != [] {
      CountSorted(rates[1..], keep);
      CountInserted(SortRates(rates[1..]), rates[0], keep);
    }
  }

  lemma {:induction false} CountAllOf(bins: seq<seq<Tx>>, keep: u64 -> bool)
    ensures CountRates(Rates(AllOf(bins)), keep) == CountIn(bins, keep)
  {
    if bins != [] {
      CountAllOf(bins[1..], keep);
      assert Rates(bins[0] + AllOf(bins[1..])) == Rates(bins[0]) + Rates(AllOf(bins[1..]));
      CountJoin(Rates(bins[0]), Rates(AllOf(bins[1..])), keep);
    }
  }

  lemma {:induction false} AllCounted(rates: seq<u64>, keep: u64 -> bool)
    requires forall i | 0 <= i < |rates| :: keep(rates[i])
    ensures CountRates(rates, keep) == |rates|
  {
    if rates != [] { AllCounted(rates[1..], keep); }
  }

  /** The rate at place `i` of the descending list has `i` others in front of it that are no lower, and the rest behind it that are
      no higher. */
  lemma RankOf(rates: seq<u64>, i: nat, high: u64 -> bool, low: u64 -> bool)
    requires i < |rates| && Descending(rates)
    requires forall x: u64 :: high(x) == (x >= rates[i]) && low(x) == (x <= rates[i])
    ensures CountRates(rates, high) >= i + 1 && CountRates(rates, low) >= |rates| - i
  {
    assert rates == rates[..i + 1] + rates[i + 1..] && rates == rates[..i] + rates[i..];
    CountJoin(rates[..i + 1], rates[i + 1..], high);
    CountJoin(rates[..i], rates[i..], low);
    AllCounted(rates[..i + 1], high);
    AllCounted(rates[i..], low);
  }

  function Any(): u64 -> bool
  {
    _ => true
  }

  /** The number of transactions in the bins before `c`, and half of what is before the last one of bin `c` itself. */
  function MiddleOf(bins: seq<seq<Tx>>, c: nat): nat
    requires 0 < c <= |bins|
  {
    CountIn(bins[..c - 1], Any()) + if bins[c - 1] == [] then 0 else (|bins[c - 1]| - 1) / 2
  }

  lemma {:induction false} BeforeIsCount(bins: seq<seq<Tx>>, n: nat)
    requires n <= |bins|
    ensures Before(bins, n) == CountIn(bins[..n], Any())
  {
    if n > 0 {
      BeforeIsCount(bins, n - 1);
      assert bins[..n] == bins[..n - 1] + [bins[n - 1]];
      CountInOneMore(bins[..n - 1], bins[n - 1]);
    }
  }

  lemma {:induction false} CountInOneMore(bins: seq<seq<Tx>>, bin: seq<Tx>)
    ensures CountIn(bins + [bin], Any()) == CountIn(bins, Any()) + |bin|
  {
    if bins == [] {
      assert [] + [bin] == [bin] && [bin][1..] == [];
      AllCounted(Rates(bin), Any());
    } else {
      assert (bins + [bin])[1..] == bins[1..] + [bin] && (bins + [bin])[0] == bins[0];
      CountInOneMore(bins[1..], bin);
    }
  }

  function Rank(bins: seq<seq<Tx>>, c: nat): nat
    requires 0 < c <= |bins| && CountIn(bins, Any()) > 0
  {
    var n, m := CountIn(bins, Any()), MiddleOf(bins, c);
    if m < n then m else n - 1
  }

  lemma EstimateStandsAt(bins: seq<seq<Tx>>, c: nat, sorted: seq<u64>)
    requires 0 < c <= |bins| && CountIn(bins, Any()) > 0 && sorted == SortRates(Rates(AllOf(bins)))
    ensures |sorted| == CountIn(bins, Any()) && Descending(sorted)
    ensures Estimates(bins)[c - 1] == sorted[Rank(bins, c)]
  {
    SortedSize(bins);
    SortDescends(Rates(AllOf(bins)));
    BeforeIsCount(bins, c - 1);
    IndexIsMiddle(bins, c);
  }

  lemma SortedSize(bins: seq<seq<Tx>>)
    ensures |SortRates(Rates(AllOf(bins)))| == CountIn(bins, Any())
  {
    var rates := Rates(AllOf(bins));
    SortDescends(rates);
    SameSize(SortRates(rates), rates);
    CountAllOf(bins, Any());
    AllCounted(rates, Any());
  }

  lemma IndexIsMiddle(bins: seq<seq<Tx>>, c: nat)
    requires 0 < c <= |bins|
    ensures FeeIndex(bins, c) == MiddleOf(bins, c)
  {
    BeforeIsCount(bins, c - 1);
    HalfWay(Before(bins, c - 1), |bins[c - 1]|);
  }

  lemma HalfWay(min: nat, size: nat)
    ensures (min + if min + size - 1 < min then min else min + size - 1) / 2 == min + if size == 0 then 0 else (size - 1) / 2
  {
  }

  /** The estimate is the rate in the middle of the bin that was asked for, all transactions ranked by rate: as many of them as
      there are up to that middle have no lower rate, and the others no higher one. */
  lemma EstimateIsMiddle(bins: seq<seq<Tx>>, c: nat, high: u64 -> bool, low: u64 -> bool)
    requires 0 < c <= |bins| && CountIn(bins, Any()) > 0
    requires forall x: u64 :: high(x) == (x >= Estimates(bins)[c - 1]) && low(x) == (x <= Estimates(bins)[c - 1])
    ensures CountIn(bins, high) >= Rank(bins, c) + 1
    ensures CountIn(bins, low) >= CountIn(bins, Any()) - Rank(bins, c)
  {
    var sorted := SortRates(Rates(AllOf(bins)));
    EstimateStandsAt(bins, c, sorted);
    RankOf(sorted, Rank(bins, c), high, low);
    CountEverywhere(bins, high);
    CountEverywhere(bins, low);
  }

  lemma CountEverywhere(bins: seq<seq<Tx>>, keep: u64 -> bool)
    ensures CountRates(SortRates(Rates(AllOf(bins))), keep) == CountIn(bins, keep)
  {
    CountSorted(Rates(AllOf(bins)), keep);
    CountAllOf(bins, keep);
  }

  /** Which questions are answered, and with what. */
  lemma AnswersExactly(s: Fees, limits: Limits, numBlocks: u64)
    requires |s.bin| == estimateFeeDepth
    ensures Answer(s, limits, numBlocks).Fee? <==> limits.minRegisteredBlocks <= s.numBlocksRegistered && 1 <= numBlocks <= 25
    ensures Answer(s, limits, numBlocks).Fee? ==> Answer(s, limits, numBlocks).rate == Estimates(s.bin)[numBlocks - 1]
  {
  }
}
