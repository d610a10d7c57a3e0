/** A worked example of the performance report: two winning long trades of
    +100 and one losing short trade of -50, all tagged "trend-up", the last
    also "high-vol". */
module Scenarios {
  import opened Sequences
  import opened Trades
  import opened Ranking
  import opened Performance

  const T1 := Trade(100.0, 200.0, 1.0, "long", ["trend-up"])
  const T2 := Trade(100.0, 150.0, 1.0, "short", ["trend-up"])
  const T3 := Trade(100.0, 200.0, 1.0, "long", ["trend-up", "high-vol"])

  lemma Prefixes()
    ensures [T1, T2, T3][..2] == [T1, T2]
    ensures [T1, T2][..1] == [T1]
    ensures [T1][..0] == []
  {
  }

  lemma SampleProfits()
    ensures Winners([T1, T2, T3]) == [T1, T3]
    ensures Profits([T1, T2, T3]) == [100.0, 100.0]
    ensures Losses([T1, T2, T3]) == [50.0]
  {
    Prefixes();
    assert ProfitLoss(T1) == 100.0 && ProfitLoss(T2) == -50.0 && ProfitLoss(T3) == 100.0;
    assert Winners([T1]) == [T1];
    assert Winners([T1, T2]) == [T1];
    assert Profits([T1]) == [100.0];
    assert Profits([T1, T2]) == [100.0];
    assert Losses([T1]) == [];
    assert Losses([T1, T2]) == [50.0];
  }

  lemma SampleTags()
    ensures AllTags([T1, T2, T3]) == ["trend-up", "trend-up", "trend-up", "high-vol"]
    ensures FirstSeen(AllTags([T1, T2, T3])) == ["trend-up", "high-vol"]
  {
    Prefixes();
    assert AllTags([T1]) == ["trend-up"];
    assert AllTags([T1, T2]) == ["trend-up", "trend-up"];
    var tags := ["trend-up", "trend-up", "trend-up", "high-vol"];
    assert tags[..3] == ["trend-up", "trend-up", "trend-up"];
    assert tags[..3][..2] == ["trend-up", "trend-up"];
    assert tags[..3][..2][..1] == ["trend-up"];
    assert FirstSeen(["trend-up"]) == ["trend-up"];
    assert FirstSeen(["trend-up", "trend-up"]) == ["trend-up"];
    assert FirstSeen(tags[..3]) == ["trend-up"];
  }

  lemma WinnerTags()
    ensures AllTags([T1, T3]) == ["trend-up", "trend-up", "high-vol"]
  {
    assert [T1, T3][..1] == [T1];
    assert [T1][..0] == [];
    assert AllTags([T1]) == ["trend-up"];
  }

  lemma SampleOccurrences()
    ensures "trend-up" in AllTags([T1, T2, T3]) && "high-vol" in AllTags([T1, T2, T3])
    ensures Occurrences([T1, T2, T3], "trend-up") == 3
    ensures Occurrences([T1, T2, T3], "high-vol") == 1
    ensures WinningOccurrences([T1, T2, T3], "trend-up") == 2
    ensures WinningOccurrences([T1, T2, T3], "high-vol") == 1
  {
    SampleProfits();
    SampleTags();
    WinnerTags();
  }

  lemma TrendUpRate()
    ensures "trend-up" in AllTags([T1, T2, T3])
    ensures TagWinRate([T1, T2, T3], "trend-up") == 2.0 / 3.0
  {
    SampleOccurrences();
    TagWinRateCounts([T1, T2, T3], "trend-up");
  }

  lemma HighVolRate()
    ensures "high-vol" in AllTags([T1, T2, T3])
    ensures TagWinRate([T1, T2, T3], "high-vol") == 1.0
  {
    SampleOccurrences();
    TagWinRateCounts([T1, T2, T3], "high-vol");
  }

  lemma SampleRates()
    ensures ConditionRates([T1, T2, T3]) == [Ranked("trend-up", 2.0 / 3.0), Ranked("high-vol", 1.0)]
  {
    SampleTags();
    TrendUpRate();
    HighVolRate();
    var r := ConditionRates([T1, T2, T3]);
    assert r[0] == Ranked("trend-up", 2.0 / 3.0);
    assert r[1] == Ranked("high-vol", 1.0);
  }

  /** Win rate 2/3, profit factor 200/50 = 4, average win 100, average
      loss 50. */
  lemma SampleMetrics()
    ensures WinRate([T1, T2, T3]) == 2.0 / 3.0
    ensures ProfitFactorOf([T1, T2, T3]) == Finite(4.0)
    ensures Mean(Profits([T1, T2, T3])) == 100.0
    ensures Mean(Losses([T1, T2, T3])) == 50.0
  {
    SampleProfits();
    assert Sum([100.0, 100.0]) == 200.0 by {
      assert [100.0, 100.0][..1] == [100.0];
    }
    assert Sum([50.0]) == 50.0;
  }

  /** "high-vol" (win rate 1) is ranked ahead of "trend-up" (win rate 2/3). */
  lemma SampleBest()
    ensures BestRanked([T1, T2, T3]) == [Ranked("high-vol", 1.0), Ranked("trend-up", 2.0 / 3.0)]
  {
    SampleRates();
    SortTwo(Ranked("trend-up", 2.0 / 3.0), Ranked("high-vol", 1.0));
  }

  /** Two items in increasing order of score swap places. */
  lemma SortTwo(lo: Ranked, hi: Ranked)
    requires lo.score < hi.score
    ensures SortDesc([lo, hi]) == [hi, lo]
  {
    assert [lo, hi][1..] == [hi];
    assert SortDesc([hi]) == Insert(hi, []);
  }

  /** The report for the example. */
  lemma ThreeTrades()
    ensures Analysis([T1, T2, T3]) == Success(TradeAnalysis(
      2.0 / 3.0, Finite(4.0), 100.0, 50.0,
      ["high-vol", "trend-up"],
      [BestWinRate("high-vol", 1.0), BestWinRate("trend-up", 2.0 / 3.0)]))
  {
    SampleMetrics();
    SampleReported();
  }

  lemma SampleReported()
    ensures Names(BestRanked([T1, T2, T3])) == ["high-vol", "trend-up"]
    ensures Insights(BestRanked([T1, T2, T3])) == [BestWinRate("high-vol", 1.0), BestWinRate("trend-up", 2.0 / 3.0)]
  {
    SampleBest();
    var top := [Ranked("high-vol", 1.0), Ranked("trend-up", 2.0 / 3.0)];
    assert Names(top) == ["high-vol", "trend-up"];
    assert Insights(top) == [BestWinRate("high-vol", 1.0), BestWinRate("trend-up", 2.0 / 3.0)];
  }
}
