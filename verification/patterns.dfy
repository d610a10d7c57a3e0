/** The pattern report (`GET /analysis/patterns`): every trade becomes a
    row of numeric features and a win/loss label, a classifier scores the
    features, and the report lists the five most important features and a
    "high correlation" pattern for each of the first three. */
module Patterns {
  import opened Sequences
  import opened Trades
  import opened Ranking

  /** "High correlation between <factor> and profitable trades". */
  datatype Pattern = HighCorrelation(factor: string)

  datatype PatternReport = PatternReport(
    importantFactors: seq<Ranked>,
    successPatterns: seq<Pattern>)

  /** Fewer trades than this are refused. */
  const MinTrades: nat := 10

  /** The union of all trades' condition tags, in the order the set yields
      them: each tag once, and exactly the tags that occur. */
  predicate IsVocabulary(ts: seq<Trade>, vocab: seq<string>)
  {
    && Distinct(vocab)
    && (forall c :: c in vocab ==> c in AllTags(ts))
    && (forall c :: c in AllTags(ts) ==> c in vocab)
  }

  /** There is one condition column per distinct tag. */
  lemma VocabularySize(ts: seq<Trade>, vocab: seq<string>)
    requires IsVocabulary(ts, vocab)
    ensures |vocab| == |Elements(AllTags(ts))|
  {
    DistinctCardinality(vocab);
    assert Elements(vocab) == Elements(AllTags(ts));
  }

  /** Every trade list has a vocabulary: its tags in order of first
      appearance are one. */
  lemma VocabularyExists(ts: seq<Trade>)
    ensures IsVocabulary(ts, FirstSeen(AllTags(ts)))
  {
    FirstSeenSpec(AllTags(ts));
  }

  // ---------------------------------------------------------------------
  // Feature encoding

  /** The column names: trade type, position size, then one per tag. */
  function FeatureNames(vocab: seq<string>): (names: seq<string>)
    ensures |names| == 2 + |vocab|
    ensures names[0] == "trade_type" && names[1] == "position_size"
    ensures forall k :: 0 <= k < |vocab| ==> names[2 + k] == vocab[k]
  {
    ["trade_type", "position_size"] + vocab
  }

  /** One 0/1 indicator per vocabulary tag: 1 when the trade lists it. */
  function ConditionFeatures(t: Trade, vocab: seq<string>): (flags: seq<real>)
    ensures |flags| == |vocab|
    ensures forall k :: 0 <= k < |vocab| ==>
      (flags[k] == 1.0 <==> vocab[k] in t.marketConditions) &&
      (flags[k] == 0.0 <==> vocab[k] !in t.marketConditions)
  {
    seq(|vocab|, k requires 0 <= k < |vocab| => if vocab[k] in t.marketConditions then 1.0 else 0.0)
  }

  /** The feature row of one trade: 1.0 for a long trade and 0.0 for any
      other, the position size, then the condition indicators. */
  function FeatureRow(t: Trade, vocab: seq<string>): (row: seq<real>)
    ensures |row| == |FeatureNames(vocab)|
    ensures row[0] == 1.0 <==> t.tradeType == Long
    ensures row[0] == 0.0 <==> t.tradeType != Long
    ensures row[1] == t.positionSize
    ensures forall k :: 0 <= k < |vocab| ==> (row[2 + k] == 1.0 <==> vocab[k] in t.marketConditions)
  {
    var flags := ConditionFeatures(t, vocab);
    var row := [if t.tradeType == Long then 1.0 else 0.0, t.positionSize] + flags;
    assert forall k :: 0 <= k < |vocab| ==> row[2 + k] == flags[k];
    row
  }

  /** 1 for a winning trade, 0 otherwise. */
  function Label(t: Trade): (l: int)
    ensures l == 1 <==> IsWin(t)
    ensures l == 0 <==> !IsWin(t)
  {
    if ProfitLoss(t) > 0.0 then 1 else 0
  }

  function FeatureMatrix(ts: seq<Trade>, vocab: seq<string>): seq<seq<real>>
  {
    seq(|ts|, i requires 0 <= i < |ts| => FeatureRow(ts[i], vocab))
  }

  function Labels(ts: seq<Trade>): seq<int>
  {
    seq(|ts|, i requires 0 <= i < |ts| => Label(ts[i]))
  }

  /** The tags a feature row marks as present. */
  function MarkedConditions(row: seq<real>, vocab: seq<string>): set<string>
    requires |row| == 2 + |vocab|
  {
    set k | 0 <= k < |vocab| && row[2 + k] == 1.0 :: vocab[k]
  }

  /** The encoding loses nothing the classifier is meant to see: from the
      row of a trade one reads back whether it is long, its size, and the
      set of its conditions. */
  lemma RowRecoversTrade(ts: seq<Trade>, vocab: seq<string>, i: nat)
    requires IsVocabulary(ts, vocab) && i < |ts|
    ensures var row := FeatureMatrix(ts, vocab)[i];
      && (row[0] == 1.0 <==> ts[i].tradeType == Long)
      && row[1] == ts[i].positionSize
      && MarkedConditions(row, vocab) == Elements(ts[i].marketConditions)
  {
    var t := ts[i];
    var row := FeatureRow(t, vocab);
    forall c | c in t.marketConditions ensures c in MarkedConditions(row, vocab) {
      TradeTagsInAll(ts, i, c);
      var k :| 0 <= k < |vocab| && vocab[k] == c;
    }
  }

  /** The labels count the winning trades: there are as many 1s as wins
      and every other label is 0. */
  lemma {:induction false} LabelsCountWins(ts: seq<Trade>)
    ensures multiset(Labels(ts))[1] == |Winners(ts)|
    ensures multiset(Labels(ts))[0] == |ts| - |Winners(ts)|
  {
    if ts != [] {
      var prefix := ts[..|ts| - 1];
      var t := ts[|ts| - 1];
      LabelsCountWins(prefix);
      assert Labels(ts) == Labels(prefix) + [Label(t)];
    }
  }

  /** One row and one label per trade; every row is as wide as the list of
      feature names; condition entries are 0 or 1; a label is 1 exactly
      for a winning trade. */
  lemma EncodingShape(ts: seq<Trade>, vocab: seq<string>)
    ensures |FeatureMatrix(ts, vocab)| == |Labels(ts)| == |ts|
    ensures forall i :: 0 <= i < |ts| ==> |FeatureMatrix(ts, vocab)[i]| == |FeatureNames(vocab)|
    ensures forall i, k :: 0 <= i < |ts| && 2 <= k < 2 + |vocab| ==>
      FeatureMatrix(ts, vocab)[i][k] == 0.0 || FeatureMatrix(ts, vocab)[i][k] == 1.0
    ensures forall i :: 0 <= i < |ts| ==> (Labels(ts)[i] == 1 <==> IsWin(ts[i]))
  {
    forall i, k | 0 <= i < |ts| && 2 <= k < 2 + |vocab|
      ensures FeatureMatrix(ts, vocab)[i][k] == 0.0 || FeatureMatrix(ts, vocab)[i][k] == 1.0
    {
      assert FeatureMatrix(ts, vocab)[i][k] == ConditionFeatures(ts[i], vocab)[k - 2];
    }
  }

  /** Builds the feature rows and labels trade by trade, as the handler's
      loop does. */
  method EncodeFeatures(ts: seq<Trade>, vocab: seq<string>) returns (features: seq<seq<real>>, labels: seq<int>)
    ensures features == FeatureMatrix(ts, vocab)
    ensures labels == Labels(ts)
  {
    features, labels := [], [];
    for i := 0 to |ts|
      invariant features == FeatureMatrix(ts[..i], vocab)
      invariant labels == Labels(ts[..i])
    {
      var trade := ts[i];
      var conditionFeatures := ConditionFeatures(trade, vocab);
      features := features + [[if trade.tradeType == Long then 1.0 else 0.0, trade.positionSize] + conditionFeatures];
      labels := labels + [if ProfitLoss(trade) > 0.0 then 1 else 0];
    }
    assert ts[..|ts|] == ts;
  }

  // ---------------------------------------------------------------------
  // Ranking of features

  /** Python's `zip`: pairs up names and scores, stopping at the shorter. */
  function Zip(names: seq<string>, scores: seq<real>): (z: seq<Ranked>)
    ensures |z| == Min(|names|, |scores|)
    ensures forall i :: 0 <= i < |z| ==> z[i] == Ranked(names[i], scores[i])
  {
    seq(Min(|names|, |scores|), i requires 0 <= i < Min(|names|, |scores|) => Ranked(names[i], scores[i]))
  }

  /** The report built from the feature names and their importances. */
  function Report(names: seq<string>, scores: seq<real>): PatternReport
  {
    var ranked := SortDesc(Zip(names, scores));
    PatternReport(
      Take(ranked, 5),
      seq(Min(3, |ranked|), i requires 0 <= i < Min(3, |ranked|) => HighCorrelation(ranked[i].name)))
  }

  /** The important factors: at most five, by non-increasing importance,
      each a (name, importance) pair of the input, at least as important as
      every pair left out, with ties in input order. */
  lemma ReportFactors(names: seq<string>, scores: seq<real>)
    ensures var factors := Report(names, scores).importantFactors;
      var pairs := Zip(names, scores);
      && |factors| == Min(5, |pairs|)
      && Sorted(factors)
      && multiset(factors) <= multiset(pairs)
      && (forall x: Ranked, i :: x in multiset(pairs) - multiset(factors) && 0 <= i < |factors| ==>
            x.score <= factors[i].score)
      && (forall k :: Keyed(factors, k) <= Keyed(pairs, k))
  {
    var pairs := Zip(names, scores);
    TopSorted(pairs, 5);
    TopBeatsRest(pairs, 5);
    TopStable(pairs, 5);
  }

  /** One success pattern for each of the first three important factors,
      naming that factor. */
  lemma ReportPatterns(names: seq<string>, scores: seq<real>)
    ensures var r := Report(names, scores);
      && |r.successPatterns| == Min(3, Min(|names|, |scores|))
      && (forall i :: 0 <= i < |r.successPatterns| ==>
            r.successPatterns[i] == HighCorrelation(r.importantFactors[i].name))
  {
  }

  // ---------------------------------------------------------------------
  // The report

  /** What the handler returns. `importances` stands for the fitted random
      forest: it maps the feature rows and labels to one importance per
      feature. */
  function PatternAnalysis(
    ts: seq<Trade>, vocab: seq<string>,
    importances: (seq<seq<real>>, seq<int>) -> seq<real>): (r: Result<PatternReport>)
    ensures r.Failure? <==> |ts| < MinTrades
    ensures r.Failure? ==> r.error == BadRequest
  {
    if |ts| < MinTrades then Failure(BadRequest)
    else Success(Report(FeatureNames(vocab), importances(FeatureMatrix(ts, vocab), Labels(ts))))
  }

  /** With one importance per feature, a successful report lists
      min(5, 2 + |vocab|) factors and min(3, 2 + |vocab|) patterns. */
  lemma PatternAnalysisSizes(
    ts: seq<Trade>, vocab: seq<string>,
    importances: (seq<seq<real>>, seq<int>) -> seq<real>)
    requires |ts| >= MinTrades
    requires |importances(FeatureMatrix(ts, vocab), Labels(ts))| == |FeatureNames(vocab)|
    ensures var r := PatternAnalysis(ts, vocab, importances).value;
      && |r.importantFactors| == Min(5, 2 + |vocab|)
      && |r.successPatterns| == Min(3, 2 + |vocab|)
  {
    var names := FeatureNames(vocab);
    var scores := importances(FeatureMatrix(ts, vocab), Labels(ts));
    ReportFactors(names, scores);
    ReportPatterns(names, scores);
  }

  method AnalyzePatterns(
    ts: seq<Trade>, vocab: seq<string>,
    importances: (seq<seq<real>>, seq<int>) -> seq<real>) returns (r: Result<PatternReport>)
    requires IsVocabulary(ts, vocab)
    ensures r == PatternAnalysis(ts, vocab, importances)
  {
    if |ts| < MinTrades {
      return Failure(BadRequest);
    }
    var features, labels := EncodeFeatures(ts, vocab);
    var featureNames := FeatureNames(vocab);
    var importance := SortDesc(Zip(featureNames, importances(features, labels)));
    var factors := Take(importance, 5);
    var patterns := seq(Min(3, |importance|), i requires 0 <= i < Min(3, |importance|) => HighCorrelation(importance[i].name));
    r := Success(PatternReport(factors, patterns));
  }
}
