/** The performance report (`GET /analysis/performance`): win rate, average
    win and loss, profit factor, and the three market conditions with the
    best win rate together with one insight per condition. */
module Performance {
  import opened Sequences
  import opened Trades
  import opened Ranking

  /** Gross profit over gross loss; infinite when nothing was lost. */
  datatype ProfitFactor = Finite(value: real) | Infinite

  /** "Best win rate in <condition>: <rate as a percentage>". */
  datatype Insight = BestWinRate(condition: string, winRate: real)

  datatype TradeAnalysis = TradeAnalysis(
    winRate: real,
    profitFactor: ProfitFactor,
    averageWin: real,
    averageLoss: real,
    bestConditions: seq<string>,
    patternInsights: seq<Insight>)

  // ---------------------------------------------------------------------
  // Basic metrics

  /** Fraction of the trades that are wins. */
  function WinRate(ts: seq<Trade>): (r: real)
    requires ts != []
    ensures 0.0 <= r <= 1.0
    ensures r * (|ts| as real) == |Winners(ts)| as real
    ensures r == 0.0 <==> forall i :: 0 <= i < |ts| ==> !IsWin(ts[i])
    ensures r == 1.0 <==> forall i :: 0 <= i < |ts| ==> IsWin(ts[i])
  {
    Fraction(|Winners(ts)|, |ts|);
    (|Winners(ts)| as real) / (|ts| as real)
  }

  /** The strictly positive profit/loss values, in trade order. */
  function Profits(ts: seq<Trade>): (ps: seq<real>)
    ensures |ps| == |Winners(ts)|
    ensures forall i :: 0 <= i < |ps| ==> ps[i] > 0.0
  {
    if ts == [] then []
    else
      var pl := ProfitLoss(ts[|ts| - 1]);
      Profits(ts[..|ts| - 1]) + (if pl > 0.0 then [pl] else [])
  }

  /** The profits are the profit/loss values of the winning trades, in
      trade order. */
  lemma {:induction false} ProfitsOfWinners(ts: seq<Trade>)
    ensures forall i :: 0 <= i < |Profits(ts)| ==> Profits(ts)[i] == ProfitLoss(Winners(ts)[i])
  {
    if ts != [] {
      ProfitsOfWinners(ts[..|ts| - 1]);
    }
  }

  function Abs(x: real): real
  {
    if x < 0.0 then -x else x
  }

  /** The magnitudes of the strictly negative profit/loss values, in trade
      order. */
  function Losses(ts: seq<Trade>): (ls: seq<real>)
    ensures forall i :: 0 <= i < |ls| ==> ls[i] > 0.0
    ensures ls == [] <==> forall i :: 0 <= i < |ts| ==> ProfitLoss(ts[i]) >= 0.0
  {
    if ts == [] then []
    else
      var pl := ProfitLoss(ts[|ts| - 1]);
      var prefix := ts[..|ts| - 1];
      assert forall i :: 0 <= i < |prefix| ==> prefix[i] == ts[i];
      Losses(prefix) + (if pl < 0.0 then [Abs(pl)] else [])
  }

  /** The losses are the magnitudes of the losing trades' profit/loss
      values, in trade order. */
  lemma {:induction false} LossesOfLosers(ts: seq<Trade>)
    ensures |Losses(ts)| == |Losers(ts)|
    ensures forall i :: 0 <= i < |Losses(ts)| ==> Losses(ts)[i] == -ProfitLoss(Losers(ts)[i])
  {
    if ts != [] {
      LossesOfLosers(ts[..|ts| - 1]);
    }
  }

  /** Number of trades that neither won nor lost. */
  function BreakEvenCount(ts: seq<Trade>): nat
  {
    if ts == [] then 0
    else BreakEvenCount(ts[..|ts| - 1]) + (if ProfitLoss(ts[|ts| - 1]) == 0.0 then 1 else 0)
  }

  /** The total profit/loss of all trades. */
  function NetProfit(ts: seq<Trade>): real
  {
    if ts == [] then 0.0 else NetProfit(ts[..|ts| - 1]) + ProfitLoss(ts[|ts| - 1])
  }

  /** Every trade is a win, a loss or break-even, and the gross profit minus
      the gross loss is the net profit. */
  lemma {:induction false} ProfitsLossesPartition(ts: seq<Trade>)
    ensures |Profits(ts)| + |Losses(ts)| + BreakEvenCount(ts) == |ts|
    ensures Sum(Profits(ts)) - Sum(Losses(ts)) == NetProfit(ts)
  {
    if ts != [] {
      var prefix := ts[..|ts| - 1];
      var pl := ProfitLoss(ts[|ts| - 1]);
      ProfitsLossesPartition(prefix);
      var p, l := Profits(prefix), Losses(prefix);
      assert NetProfit(ts) == NetProfit(prefix) + pl;
      assert Profits(ts) == p + (if pl > 0.0 then [pl] else []);
      assert Losses(ts) == l + (if pl < 0.0 then [Abs(pl)] else []);
      NetStep(p, l, pl, NetProfit(prefix));
    }
  }

  lemma NetStep(p: seq<real>, l: seq<real>, pl: real, net: real)
    requires Sum(p) - Sum(l) == net
    ensures Sum(p + (if pl > 0.0 then [pl] else [])) - Sum(l + (if pl < 0.0 then [Abs(pl)] else [])) == net + pl
  {
    SumSnoc(p, pl);
    SumSnoc(l, Abs(pl));
    assert p + [] == p;
    assert l + [] == l;
  }

  /** `sum(profits) / abs(sum(losses))`, or infinity when no trade lost. */
  function ProfitFactorOf(ts: seq<Trade>): (pf: ProfitFactor)
    ensures pf.Infinite? <==> forall i :: 0 <= i < |ts| ==> ProfitLoss(ts[i]) >= 0.0
    ensures pf.Finite? ==> pf.value >= 0.0
  {
    var profits, losses := Profits(ts), Losses(ts);
    if losses != [] then
      SumSign(profits);
      SumSign(losses);
      Finite(Sum(profits) / Abs(Sum(losses)))
    else Infinite
  }

  lemma RatioAgainstOne(p: real, l: real)
    requires l > 0.0
    ensures p / l > 1.0 <==> p > l
    ensures p / l == 1.0 <==> p == l
  {
  }

  /** A finite profit factor is above 1 exactly when the trades made money
      overall, and equal to 1 exactly when they broke even overall. */
  lemma ProfitFactorAgainstNet(ts: seq<Trade>)
    requires ProfitFactorOf(ts).Finite?
    ensures ProfitFactorOf(ts).value > 1.0 <==> NetProfit(ts) > 0.0
    ensures ProfitFactorOf(ts).value == 1.0 <==> NetProfit(ts) == 0.0
  {
    ProfitsLossesPartition(ts);
    SumSign(Losses(ts));
    RatioAgainstOne(Sum(Profits(ts)), Sum(Losses(ts)));
  }

  /** Both averages are non-negative; the average win is zero exactly when
      no trade won and the average loss is zero exactly when no trade lost. */
  lemma AveragesSign(ts: seq<Trade>)
    requires ts != []
    ensures var a := Analysis(ts).value;
      && a.averageWin >= 0.0 && a.averageLoss >= 0.0
      && (a.averageWin == 0.0 <==> forall i :: 0 <= i < |ts| ==> !IsWin(ts[i]))
      && (a.averageLoss == 0.0 <==> forall i :: 0 <= i < |ts| ==> ProfitLoss(ts[i]) >= 0.0)
  {
    var a := Analysis(ts).value;
    assert a.averageWin == Mean(Profits(ts)) && a.averageLoss == Mean(Losses(ts));
  }

  // ---------------------------------------------------------------------
  // Grouping of outcomes by market condition

  /** For condition `c`, one win flag per occurrence of `c` in the trades'
      condition lists, in trade order; a trade that lists `c` twice
      contributes two flags. */
  function Outcomes(ts: seq<Trade>, c: string): seq<bool>
  {
    if ts == [] then []
    else
      var t := ts[|ts| - 1];
      Outcomes(ts[..|ts| - 1], c) + Repeat(IsWin(t), multiset(t.marketConditions)[c])
  }

  /** The list of condition `c` has one entry per occurrence of `c` in all
      trades, and one `true` per occurrence in a winning trade. */
  lemma {:induction false} OutcomeCounts(ts: seq<Trade>, c: string)
    ensures |Outcomes(ts, c)| == multiset(AllTags(ts))[c]
    ensures multiset(Outcomes(ts, c))[true] == multiset(AllTags(Winners(ts)))[c]
  {
    if ts != [] {
      var prefix := ts[..|ts| - 1];
      var t := ts[|ts| - 1];
      OutcomeCounts(prefix, c);
      RepeatMultiset(IsWin(t), multiset(t.marketConditions)[c]);
      if IsWin(t) {
        var w := Winners(prefix);
        assert (w + [t])[..|w|] == w;
      }
    }
  }

  /** The condition table as a mapping: every condition that occurs to its
      list of outcomes. */
  function ConditionGroups(ts: seq<Trade>): map<string, seq<bool>>
  {
    map c | c in AllTags(ts) :: Outcomes(ts, c)
  }

  lemma OutcomesOfAbsent(ts: seq<Trade>, c: string)
    requires c !in AllTags(ts)
    ensures Outcomes(ts, c) == []
  {
    OutcomeCounts(ts, c);
  }

  /** The table after the handler has processed the trades `prev`
      completely. */
  ghost predicate Grouped(prev: seq<Trade>, order: seq<string>, groups: map<string, seq<bool>>)
  {
    && order == FirstSeen(AllTags(prev))
    && (forall c :: c in groups <==> c in AllTags(prev))
    && (forall c :: c in groups ==> groups[c] == Outcomes(prev, c))
  }

  /** The table after the handler has processed the trades `prev` and the
      first `j` conditions of trade `t`. */
  ghost predicate PartlyGrouped(prev: seq<Trade>, t: Trade, j: nat, order: seq<string>, groups: map<string, seq<bool>>)
    requires j <= |t.marketConditions|
  {
    var seen := AllTags(prev) + t.marketConditions[..j];
    && order == FirstSeen(seen)
    && (forall c :: c in groups <==> c in seen)
    && (forall c :: c in groups ==>
          groups[c] == Outcomes(prev, c) + Repeat(IsWin(t), multiset(t.marketConditions[..j])[c]))
  }

  lemma StartTrade(prev: seq<Trade>, t: Trade, order: seq<string>, groups: map<string, seq<bool>>)
    requires Grouped(prev, order, groups)
    ensures PartlyGrouped(prev, t, 0, order, groups)
  {
    assert AllTags(prev) + t.marketConditions[..0] == AllTags(prev);
    forall c | c in groups
      ensures groups[c] == Outcomes(prev, c) + Repeat(IsWin(t), multiset(t.marketConditions[..0])[c])
    {
      assert Outcomes(prev, c) + [] == Outcomes(prev, c);
    }
  }

  lemma FinishTrade(prev: seq<Trade>, t: Trade, order: seq<string>, groups: map<string, seq<bool>>)
    requires PartlyGrouped(prev, t, |t.marketConditions|, order, groups)
    ensures Grouped(prev + [t], order, groups)
  {
    var ts := prev + [t];
    assert ts[..|ts| - 1] == prev;
    assert t.marketConditions[..|t.marketConditions|] == t.marketConditions;
    assert AllTags(ts) == AllTags(prev) + t.marketConditions;
    forall c | c in groups ensures groups[c] == Outcomes(ts, c) { }
  }

  /** One step of the inner loop: condition `c` of trade `t` gets a key if it
      is new, and the trade's win flag is appended to its list. */
  lemma AddCondition(prev: seq<Trade>, t: Trade, j: nat, order: seq<string>, groups: map<string, seq<bool>>)
    requires j < |t.marketConditions|
    requires PartlyGrouped(prev, t, j, order, groups)
    ensures var c := t.marketConditions[j];
      PartlyGrouped(prev, t, j + 1,
        if c in groups then order else order + [c],
        groups[c := (if c in groups then groups[c] else []) + [IsWin(t)]])
  {
    var conds := t.marketConditions;
    var c := conds[j];
    var seen := AllTags(prev) + conds[..j];
    var seen' := AllTags(prev) + conds[..j + 1];
    var order' := if c in groups then order else order + [c];
    var groups' := groups[c := (if c in groups then groups[c] else []) + [IsWin(t)]];
    assert seen' == seen + [c];
    AddConditionOrder(seen, c, order, c in groups);
    forall x | x in groups'
      ensures groups'[x] == Outcomes(prev, x) + Repeat(IsWin(t), multiset(conds[..j + 1])[x])
    {
      AddConditionOutcome(prev, t, j, x, if x in groups then groups[x] else []);
    }
  }

  lemma AddConditionOrder(seen: seq<string>, c: string, order: seq<string>, known: bool)
    requires order == FirstSeen(seen)
    requires known <==> c in seen
    ensures (if known then order else order + [c]) == FirstSeen(seen + [c])
  {
    assert (seen + [c])[..|seen|] == seen;
    FirstSeenSpec(seen);
  }

  lemma AddConditionOutcome(prev: seq<Trade>, t: Trade, j: nat, x: string, before: seq<bool>)
    requires j < |t.marketConditions|
    requires x in AllTags(prev) + t.marketConditions[..j] ==>
      before == Outcomes(prev, x) + Repeat(IsWin(t), multiset(t.marketConditions[..j])[x])
    requires x !in AllTags(prev) + t.marketConditions[..j] ==> before == []
    ensures var c := t.marketConditions[j];
      (if x == c then before + [IsWin(t)] else before)
        == Outcomes(prev, x) + Repeat(IsWin(t), multiset(t.marketConditions[..j + 1])[x])
  {
    var conds := t.marketConditions;
    assert conds[..j + 1] == conds[..j] + [conds[j]];
    var n := multiset(conds[..j])[x];
    if x !in AllTags(prev) + conds[..j] {
      OutcomesOfAbsent(prev, x);
      assert n == 0;
    }
    if x == conds[j] {
      assert Repeat(IsWin(t), n) + [IsWin(t)] == Repeat(IsWin(t), n + 1);
    }
  }

  /** Builds the condition table the way the handler does: walking the
      trades and their conditions in order, adding a key with an empty list
      on its first appearance and appending the trade's win flag. The
      dictionary's insertion order is `order`. */
  method GroupByCondition(ts: seq<Trade>) returns (order: seq<string>, groups: map<string, seq<bool>>)
    ensures order == FirstSeen(AllTags(ts))
    ensures groups == ConditionGroups(ts)
  {
    order, groups := [], map[];
    for i := 0 to |ts|
      invariant Grouped(ts[..i], order, groups)
    {
      var trade := ts[i];
      var conds := trade.marketConditions;
      StartTrade(ts[..i], trade, order, groups);
      for j := 0 to |conds|
        invariant PartlyGrouped(ts[..i], trade, j, order, groups)
      {
        var c := conds[j];
        AddCondition(ts[..i], trade, j, order, groups);
        if c !in groups {
          groups := groups[c := []];
          order := order + [c];
        }
        groups := groups[c := groups[c] + [ProfitLoss(trade) > 0.0]];
      }
      FinishTrade(ts[..i], trade, order, groups);
      assert ts[..i + 1] == ts[..i] + [trade];
    }
    assert ts[..|ts|] == ts;
  }

  // ---------------------------------------------------------------------
  // Ranking of conditions

  /** `sum(outcomes) / len(outcomes)`: the fraction of `true` entries. */
  function Rate(outcomes: seq<bool>): (r: real)
    requires |outcomes| > 0
    ensures 0.0 <= r <= 1.0
    ensures r == 0.0 <==> true !in outcomes
    ensures r == 1.0 <==> false !in outcomes
  {
    var wins := multiset(outcomes)[true];
    BoolCounts(outcomes);
    Fraction(wins, |outcomes|);
    (wins as real) / (|outcomes| as real)
  }

  predicate Tabulates(order: seq<string>, groups: map<string, seq<bool>>)
  {
    forall i :: 0 <= i < |order| ==> order[i] in groups && |groups[order[i]]| > 0
  }

  /** The table's items in insertion order, each with its win rate. */
  function RankGroups(order: seq<string>, groups: map<string, seq<bool>>): seq<Ranked>
    requires Tabulates(order, groups)
  {
    seq(|order|, i requires 0 <= i < |order| => Ranked(order[i], Rate(groups[order[i]])))
  }

  function Insights(top: seq<Ranked>): seq<Insight>
  {
    seq(|top|, i requires 0 <= i < |top| => BestWinRate(top[i].name, top[i].score))
  }

  /** Every condition that occurs has a non-empty outcome list. */
  lemma GroupsTabulate(ts: seq<Trade>)
    ensures Tabulates(FirstSeen(AllTags(ts)), ConditionGroups(ts))
  {
    var order := FirstSeen(AllTags(ts));
    FirstSeenSpec(AllTags(ts));
    forall i | 0 <= i < |order| ensures |Outcomes(ts, order[i])| > 0 {
      assert order[i] in order;
      OutcomeCounts(ts, order[i]);
    }
  }

  /** How often tag `c` occurs across all trades' condition lists. */
  function Occurrences(ts: seq<Trade>, c: string): nat
  {
    multiset(AllTags(ts))[c]
  }

  /** How often tag `c` occurs in the condition lists of winning trades. */
  function WinningOccurrences(ts: seq<Trade>, c: string): nat
  {
    multiset(AllTags(Winners(ts)))[c]
  }

  /** The win rate of a tag as the handler computes it: the mean of its
      outcome list. */
  function TagWinRate(ts: seq<Trade>, c: string): (r: real)
    requires c in AllTags(ts)
    ensures 0.0 <= r <= 1.0
  {
    OutcomeCounts(ts, c);
    Rate(Outcomes(ts, c))
  }

  /** A tag's win rate is the number of its occurrences in winning trades
      over the number of its occurrences. */
  lemma TagWinRateCounts(ts: seq<Trade>, c: string)
    requires c in AllTags(ts)
    ensures Occurrences(ts, c) > 0
    ensures TagWinRate(ts, c) == (WinningOccurrences(ts, c) as real) / (Occurrences(ts, c) as real)
  {
    OutcomeCounts(ts, c);
  }

  /** Every condition tag with its win rate, in order of first appearance. */
  function ConditionRates(ts: seq<Trade>): (rates: seq<Ranked>)
    ensures |rates| == |FirstSeen(AllTags(ts))|
    ensures forall i :: 0 <= i < |rates| ==>
      && rates[i].name == FirstSeen(AllTags(ts))[i]
      && rates[i].name in AllTags(ts)
      && rates[i].score == TagWinRate(ts, rates[i].name)
  {
    GroupsTabulate(ts);
    var rates := RankGroups(FirstSeen(AllTags(ts)), ConditionGroups(ts));
    FirstSeenSpec(AllTags(ts));
    assert forall i :: 0 <= i < |rates| ==> rates[i].name in FirstSeen(AllTags(ts));
    rates
  }

  /** The three conditions with the highest win rate, with their rates, as
      `sorted(..., reverse=True)[:3]` picks them. */
  function BestRanked(ts: seq<Trade>): seq<Ranked>
  {
    Take(SortDesc(ConditionRates(ts)), 3)
  }

  // ---------------------------------------------------------------------
  // The report

  /** What the handler returns for the trade list `ts`. */
  function Analysis(ts: seq<Trade>): (r: Result<TradeAnalysis>)
    ensures r.Failure? <==> ts == []
    ensures r.Failure? ==> r.error == NotFound
  {
    if ts == [] then Failure(NotFound)
    else
      var top := BestRanked(ts);
      Success(TradeAnalysis(
        WinRate(ts),
        ProfitFactorOf(ts),
        Mean(Profits(ts)),
        Mean(Losses(ts)),
        Names(top),
        Insights(top)))
  }

  lemma RatesNames(ts: seq<Trade>)
    ensures Names(ConditionRates(ts)) == FirstSeen(AllTags(ts))
  {
  }

  /** Sorting keeps the names duplicate-free, and a prefix of a
      duplicate-free sequence is duplicate-free. */
  lemma SortedPrefixDistinct(s: seq<Ranked>, n: nat)
    requires Distinct(Names(s))
    ensures Distinct(Names(Take(SortDesc(s), n)))
  {
    var sorted := SortDesc(s);
    SortNames(s);
    DistinctPermutation(Names(s), Names(sorted));
    assert Names(Take(sorted, n)) == Names(sorted)[..Min(n, |sorted|)];
  }

  /** Every element of the sorted sequence's prefix comes from `s`. */
  lemma TakeSortedFrom(s: seq<Ranked>, n: nat, i: nat)
    requires i < |Take(SortDesc(s), n)|
    ensures Take(SortDesc(s), n)[i] in s
  {
    var sorted := SortDesc(s);
    assert Take(sorted, n)[i] == sorted[i];
    assert sorted[i] in multiset(s);
  }

  lemma BestRankedChosen(ts: seq<Trade>)
    ensures |BestRanked(ts)| == Min(3, |Elements(AllTags(ts))|)
    ensures Distinct(Names(BestRanked(ts)))
    ensures forall i :: 0 <= i < |BestRanked(ts)| ==>
      && BestRanked(ts)[i].name in AllTags(ts)
      && BestRanked(ts)[i].score == TagWinRate(ts, BestRanked(ts)[i].name)
  {
    var tags := AllTags(ts);
    var rates := ConditionRates(ts);
    FirstSeenSpec(tags);
    DistinctCardinality(FirstSeen(tags));
    assert Elements(FirstSeen(tags)) == Elements(tags);
    RatesNames(ts);
    SortedPrefixDistinct(rates, 3);
    forall i | 0 <= i < |BestRanked(ts)|
      ensures BestRanked(ts)[i].name in AllTags(ts)
      ensures BestRanked(ts)[i].score == TagWinRate(ts, BestRanked(ts)[i].name)
    {
      TakeSortedFrom(rates, 3, i);
    }
  }

  /** The best conditions are min(3, number of distinct tags) tags, without
      duplicates, each of which occurs in some trade. */
  lemma BestConditionsChosen(ts: seq<Trade>)
    requires ts != []
    ensures var best := Analysis(ts).value.bestConditions;
      && |best| == Min(3, |Elements(AllTags(ts))|)
      && Distinct(best)
      && forall i :: 0 <= i < |best| ==> best[i] in AllTags(ts)
  {
    BestRankedChosen(ts);
  }

  /** One insight per best condition, carrying that condition and its win
      rate. */
  lemma BestConditionsInsights(ts: seq<Trade>)
    requires ts != []
    ensures var a := Analysis(ts).value;
      && |a.patternInsights| == |a.bestConditions|
      && (forall i :: 0 <= i < |a.bestConditions| ==> a.bestConditions[i] in AllTags(ts))
      && (forall i :: 0 <= i < |a.bestConditions| ==>
            a.patternInsights[i] == BestWinRate(a.bestConditions[i], TagWinRate(ts, a.bestConditions[i])))
  {
    AnalysisBest(ts);
    BestRankedChosen(ts);
  }

  /** The insights come in non-increasing order of win rate. */
  lemma BestConditionsOrdered(ts: seq<Trade>)
    requires ts != []
    ensures var insights := Analysis(ts).value.patternInsights;
      forall i, j :: 0 <= i < j < |insights| ==> insights[i].winRate >= insights[j].winRate
  {
    AnalysisBest(ts);
    TopSorted(ConditionRates(ts), 3);
  }

  /** The best conditions and insights of the report. */
  lemma AnalysisBest(ts: seq<Trade>)
    requires ts != []
    ensures Analysis(ts).value.bestConditions == Names(BestRanked(ts))
    ensures Analysis(ts).value.patternInsights == Insights(BestRanked(ts))
  {
  }

  /** Every tag left out of the best conditions has a win rate no higher
      than any chosen one. */
  lemma BestConditionsBeatRest(ts: seq<Trade>)
    requires ts != []
    ensures var a := Analysis(ts).value;
      forall c, i :: c in AllTags(ts) && c !in a.bestConditions && 0 <= i < |a.patternInsights| ==>
        TagWinRate(ts, c) <= a.patternInsights[i].winRate
  {
    var top := BestRanked(ts);
    var a := Analysis(ts).value;
    assert a.bestConditions == Names(top) && a.patternInsights == Insights(top);
    forall c, i | c in AllTags(ts) && c !in Names(top) && 0 <= i < |top|
      ensures TagWinRate(ts, c) <= top[i].score
    {
      UnchosenRate(ts, c, i);
    }
  }

  lemma UnchosenRate(ts: seq<Trade>, c: string, i: nat)
    requires c in AllTags(ts) && c !in Names(BestRanked(ts)) && i < |BestRanked(ts)|
    ensures TagWinRate(ts, c) <= BestRanked(ts)[i].score
  {
    var rates := ConditionRates(ts);
    var top := BestRanked(ts);
    var p :| 0 <= p < |rates| && rates[p].name == c by {
      FirstSeenSpec(AllTags(ts));
      var q :| 0 <= q < |FirstSeen(AllTags(ts))| && FirstSeen(AllTags(ts))[q] == c;
      assert rates[q].name == c;
    }
    var x := rates[p];
    assert x.score == TagWinRate(ts, c);
    assert x !in top by {
      forall j | 0 <= j < |top| ensures top[j] != x {
        assert Names(top)[j] in Names(top);
      }
    }
    assert x in multiset(rates) - multiset(top) by {
      assert multiset(top)[x] == 0;
      assert x in multiset(rates);
    }
    assert x.score <= top[i].score by {
      TopBeatsRest(rates, 3);
    }
  }

  /** Ties keep first-seen order: for every win rate `k`, the best
      conditions with rate `k` are the first tags with rate `k` in order of
      first appearance, in that order. `AnalysisBest` ties `BestRanked` to
      the report: its names are `bestConditions` and its items, in the same
      order, are `patternInsights`. */
  lemma BestConditionsStable(ts: seq<Trade>)
    ensures forall k :: Keyed(BestRanked(ts), k) <= Keyed(ConditionRates(ts), k)
  {
    TopStable(ConditionRates(ts), 3);
  }

  /** Adding `n` to both the numerator and the denominator of a fraction
      of at most one does not lower it. */
  lemma FractionGrows(w: real, o: real, n: real, w': real, o': real)
    requires 0.0 <= w <= o && o > 0.0 && n > 0.0
    requires w' == w + n && o' == o + n
    ensures w' / o' >= w / o
  {
    var x, y := w / o, (w + n) / (o + n);
    DivisionBounds(w, o, 0.0, 1.0);
    DivMul(w, o);
    DivMul(w + n, o + n);
    ProductOrder(x, y, w, o, n);
  }

  lemma DivMul(a: real, n: real)
    requires n > 0.0
    ensures (a / n) * n == a
  {
  }

  lemma ProductOrder(x: real, y: real, w: real, o: real, n: real)
    requires o > 0.0 && n > 0.0 && x <= 1.0
    requires x * o == w && y * (o + n) == w + n
    ensures y >= x
  {
    assert x * n <= n;
    assert x * (o + n) <= y * (o + n);
  }

  lemma AppendTrade(ts: seq<Trade>, t: Trade)
    ensures AllTags(ts + [t]) == AllTags(ts) + t.marketConditions
    ensures Winners(ts + [t]) == if IsWin(t) then Winners(ts) + [t] else Winners(ts)
  {
    assert (ts + [t])[..|ts|] == ts;
  }

  /** A tag occurs at least as often as it occurs in winning trades. */
  lemma WinningAtMostOccurrences(ts: seq<Trade>, c: string)
    ensures WinningOccurrences(ts, c) <= Occurrences(ts, c)
  {
    OutcomeCounts(ts, c);
    BoolCounts(Outcomes(ts, c));
  }

  /** Adding a winning trade that carries an existing tag never lowers that
      tag's win rate. */
  lemma WinningTradeKeepsRate(ts: seq<Trade>, t: Trade, c: string)
    requires IsWin(t) && c in t.marketConditions && c in AllTags(ts)
    ensures c in AllTags(ts + [t])
    ensures TagWinRate(ts + [t], c) >= TagWinRate(ts, c)
  {
    var n := multiset(t.marketConditions)[c];
    var w, o := WinningOccurrences(ts, c), Occurrences(ts, c);
    var w', o' := WinningOccurrences(ts + [t], c), Occurrences(ts + [t], c);
    assert o' == o + n && w' == w + n && c in AllTags(ts + [t]) by {
      AppendTrade(ts, t);
      AppendTrade(Winners(ts), t);
    }
    assert TagWinRate(ts, c) == (w as real) / (o as real) && o > 0 by {
      TagWinRateCounts(ts, c);
    }
    assert TagWinRate(ts + [t], c) == (w' as real) / (o' as real) by {
      TagWinRateCounts(ts + [t], c);
    }
    assert w <= o by {
      WinningAtMostOccurrences(ts, c);
    }
    FractionGrows(w as real, o as real, n as real, w' as real, o' as real);
  }

  method AnalyzePerformance(ts: seq<Trade>) returns (r: Result<TradeAnalysis>)
    ensures r == Analysis(ts)
  {
    if ts == [] {
      return Failure(NotFound);
    }
    var winRate := WinRate(ts);
    var profits := Profits(ts);
    var losses := Losses(ts);
    var avgWin := Mean(profits);
    var avgLoss := Mean(losses);
    var profitFactor := ProfitFactorOf(ts);
    var order, groups := GroupByCondition(ts);
    GroupsTabulate(ts);
    var best := Take(SortDesc(RankGroups(order, groups)), 3);
    assert best == BestRanked(ts);
    r := Success(TradeAnalysis(winRate, profitFactor, avgWin, avgLoss, Names(best), Insights(best)));
  }
}
