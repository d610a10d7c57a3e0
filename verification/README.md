# Trading-journal analytics in Dafny

This project models the analytics core of an AI trading-journal backend
(`backend/main.py`). Each journal entry is a trade with entry and exit
price, position size, a trade type and a list of market-condition tags.
The model covers three parts:

- **Profit/loss of one trade** (`TradeEntry.profit_loss`). The type
  `"long"` gets multiplier +1; every other type string gets -1.
- **The performance report** (`GET /analysis/performance`):
  - win rate;
  - average win and average loss;
  - the profit factor, which is infinite when nothing was lost;
  - a table that groups each tag's win/loss outcomes, keyed in order of
    first appearance;
  - the three tags with the best win rate, found by Python's stable
    descending sort, with one insight per chosen tag;
  - a 404 failure when there are no trades.
- **The pattern report** (`GET /analysis/patterns`):
  - a 400 failure below ten trades;
  - one feature row per trade: a long flag, the position size, and one 0/1
    column per tag;
  - one 0/1 win label per trade;
  - the list of feature names;
  - the features ranked by the classifier's importances, keeping the top five
    factors and one "high correlation" pattern for each of the first three.

Modules:

- `Sequences` (sequences.dfy): generic facts. Duplicate-free sequences,
  first-appearance order (`FirstSeen`), sums, and the mean that numpy gives
  (0 for an empty list in the handler).
- `Trades` (trades.dfy): the trade record, `ProfitLoss`, `IsWin` and `IsLoss`,
  the filtering comprehension (`Select`, proved to keep every accepted trade
  once and in order), the winning and losing trades, all tags, and the HTTP
  error results.
- `Ranking` (ranking.dfy): `(name, score)` pairs and Python's
  `sorted(..., reverse=True)` as a stable insertion sort. Stability is stated
  as "for every score, the items with that score keep their input order"
  (`Keyed`). A uniqueness lemma shows this pins the sort down completely.
- `Performance` (performance.dfy): the performance report. The loop that
  fills the condition dictionary is a method (`GroupByCondition`). It is
  proved against the pure outcome lists (`Outcomes`) and against
  first-appearance key order. The insertion-ordered Python dictionary is a
  pair: a key-order sequence plus a map.
- `Patterns` (patterns.dfy): the pattern report. The loop that appends
  feature rows and labels is a method (`EncodeFeatures`) proved against the
  pure encoding.
- `Scenarios` (scenarios.dfy): a worked example with three trades.

Prices and sizes are exact reals, so floating-point rounding does not arise.
The two inputs the handlers get from outside are parameters:

- **The tag vocabulary.** This is the Python set of all tags. Its iteration
  order is unspecified, so `vocab` is any duplicate-free sequence with
  exactly the trades' tags (`Patterns.IsVocabulary`). The same sequence
  serves both the feature columns (line 141) and the feature names
  (line 157).
- **The random forest's feature importances.** They are a function from the
  feature rows and labels to a sequence of reals.

The model follows `backend/main.py` as written:

- An empty history fails with 404; there is no win rate of 0 for it.
- With no losing trade the profit factor is infinity.
- Tags are used exactly as given: they are not trimmed, lower-cased or
  de-duplicated. A tag listed twice in one trade counts twice.
- Best conditions have no minimum number of trades and no tie-break of their
  own: ties keep first-seen order, and the list is cut to three.
- The feature vocabulary comes in set iteration order.
- Fewer than ten trades fail with 400.
- The classifier is built without a fixed random seed.
- Patterns are single features; no combinations of tags are examined.

## Model

| member | source | states |
|---|---|---|
| Trades.ProfitLoss | backend/main.py:38-41 | a `"long"` trade earns (exit - entry) * size; any other trade type earns (entry - exit) * size |
| Trades.WinDirection | backend/main.py:38-41 | with a positive size, a long trade wins exactly when the price rose and any other trade wins exactly when it fell |
| Trades.IsWin | backend/main.py:89 | a trade wins when its profit/loss is strictly positive, so break-even is no win; the predicate has no contract of its own, and `WinDirection` states what it means for the prices |
| Trades.IsLoss | backend/main.py:93 | a trade loses when its profit/loss is strictly negative; no contract of its own, `LossesOfLosers` ties it to the losses list |
| Trades.Select | backend/main.py:89 | a list comprehension with a filter keeps only accepted trades, is empty exactly when no trade is accepted and keeps all trades exactly when every trade is accepted |
| Trades.SelectCount | backend/main.py:89 | the selection has exactly as many entries as there are accepted positions in the input |
| Trades.SelectPrefix | backend/main.py:89 | filtering a prefix of the trades gives a prefix of the filtered list |
| Trades.SelectPosition | backend/main.py:89 | every accepted trade appears, placed right after the trades accepted before it, so the filter keeps trade order |
| Trades.Winners | backend/main.py:89 | the winning trades are `Select` with `IsWin`: every one wins, none exactly when no trade wins, all trades exactly when every trade wins; with `SelectCount` and `SelectPosition` every winner appears once, in trade order |
| Trades.Losers | backend/main.py:93 | the losing trades are `Select` with `IsLoss`: every one loses, and there are none exactly when no trade loses |
| Trades.AllTags | backend/main.py:101-102 | the tags of all trades concatenated in trade order; no contract of its own, `TradeTagsInAll` and `TagOrigin` state its members and `OutcomeCounts` its multiplicities |
| Trades.TradeTagsInAll | backend/main.py:101-102 | every tag of every trade is among all tags |
| Trades.TagOrigin | backend/main.py:101-102 | every tag among all tags comes from the condition list of some trade |
| Performance.WinRate | backend/main.py:89-90 | the win rate lies in [0,1], times the number of trades it is the number of winners, it is 0 exactly when no trade wins and 1 exactly when all win |
| Performance.Profits | backend/main.py:92 | one strictly positive profit per winning trade |
| Performance.ProfitsOfWinners | backend/main.py:89-92 | the i-th profit is the profit/loss of the i-th winning trade, so profits are the winners' P/L in trade order |
| Performance.Losses | backend/main.py:93 | every loss magnitude is strictly positive, and there are none exactly when no trade has negative P/L |
| Performance.LossesOfLosers | backend/main.py:93 | the i-th loss is the absolute value of the (negative) profit/loss of the i-th losing trade, one per losing trade, in trade order |
| Performance.ProfitsLossesPartition | backend/main.py:92-93 | every trade is a win, a loss or break-even (break-even trades are in neither list), and gross profit minus gross loss is the net P/L |
| Sequences.Mean | backend/main.py:95-96 | the mean of an empty list is 0, of non-negative values is non-negative, of a non-empty list of positive values is positive |
| Sequences.MeanBounds | backend/main.py:95-96 | the mean of a non-empty list lies between any lower and upper bound of its values |
| Performance.AveragesSign | backend/main.py:95-96 | both averages are non-negative; the average win is 0 exactly when no trade won and the average loss is 0 exactly when no trade lost |
| Performance.ProfitFactorOf | backend/main.py:97 | the profit factor is infinite exactly when no trade has negative P/L (including all break-even) and otherwise finite and non-negative |
| Performance.ProfitFactorAgainstNet | backend/main.py:97 | a finite profit factor exceeds 1 exactly when net P/L is positive and equals 1 exactly when net P/L is zero |
| Performance.Outcomes | backend/main.py:100-105 | the outcome list the loop builds for one tag; no contract of its own, `OutcomeCounts` states its length and its wins and `GroupByCondition` proves the loop builds it |
| Performance.OutcomeCounts | backend/main.py:100-105 | each tag's outcome list has one entry per occurrence of the tag across all trades (repeats counted) and one `true` per occurrence in a winning trade |
| Sequences.FirstSeen | backend/main.py:103-104 | the dictionary's key insertion order: a key is appended the first time it is met; no contract of its own, `FirstSeenSpec` states it |
| Sequences.FirstSeenSpec | backend/main.py:100-105 | the dictionary's key order lists every tag exactly once, ordered by the position of its first occurrence |
| Performance.ConditionGroups | backend/main.py:100-105 | the dictionary's contents after the loop, each tag that occurs mapped to its outcome list; no contract of its own, `GroupByCondition` proves the loop builds it, `GroupsTabulate` that every list is non-empty and `OutcomesOfAbsent` that no other tag has outcomes |
| Performance.GroupByCondition | backend/main.py:100-105 | after the nested loop, the dictionary's keys in insertion order are the tags in first-seen order and each key maps to its outcome list |
| Performance.Rate | backend/main.py:109 | `sum(outcomes) / len(outcomes)` lies in [0,1], is 0 exactly when no outcome is a win and 1 exactly when every outcome is |
| Performance.TagWinRate | backend/main.py:109 | the win rate of a tag that occurs lies in [0,1]; `TagWinRateCounts` gives its value |
| Performance.TagWinRateCounts | backend/main.py:100-109 | a tag's win rate is its occurrences in winning trades divided by its occurrences, which are positive |
| Performance.RankGroups | backend/main.py:107-109 | the dictionary's items in insertion order with their rates; no contract of its own, `ConditionRates` states what it yields for the grouped trades |
| Performance.ConditionRates | backend/main.py:107-109 | the ranked items are the tags in first-seen order, each paired with its win rate |
| Ranking.SortDesc | backend/main.py:107-111 | the sorted list is in non-increasing score order and is a permutation of the input |
| Ranking.SortKeyed | backend/main.py:107-111 | the sort is stable: for every score, the items with that score appear in their input order |
| Ranking.SortUnique | backend/main.py:107-111 | any ordered arrangement that keeps every score's items in input order is exactly the stable sort |
| Ranking.TopSorted | backend/main.py:107-111 | the first n of the sorted list are min(n, length) items in non-increasing order |
| Ranking.TopStable | backend/main.py:107-111 | the first n of the sorted list keep, for every score, a prefix of the input's items with that score, in input order |
| Ranking.Take | backend/main.py:111 | the slice `[:n]` has min(n, length) items; `KeyedTake`, `TopBeatsRest` and `TopStable` state which items it keeps |
| Ranking.KeyedTake | backend/main.py:111 | cutting to the first n keeps, for every score, a prefix of the items with that score |
| Ranking.TopBeatsRest | backend/main.py:107-111 | the first n sorted items come from the input, and every item left out scores no higher than any kept one |
| Ranking.SortNames | backend/main.py:118 | sorting permutes the names |
| Performance.Analysis | backend/main.py:84-86 | the performance report fails exactly when there are no trades, and then with 404 "No trades found" |
| Performance.BestRanked | backend/main.py:107-111 | the three best (tag, rate) items; no contract of its own, the `BestConditions…` lemmas below state its properties |
| Performance.Insights | backend/main.py:119-122 | one insight per chosen item; no contract of its own, `BestConditionsInsights` states it over the report |
| Ranking.Names | backend/main.py:118 | `[c[0] for c in best_conditions]`: one name per item, the i-th naming the i-th item |
| Performance.BestConditionsChosen | backend/main.py:107-111 | there are exactly min(3, number of distinct tags) best conditions, with no duplicates, each occurring in some trade |
| Performance.BestConditionsInsights | backend/main.py:118-122 | there is one insight per best condition, and the i-th names the i-th condition with that condition's win rate |
| Performance.BestConditionsOrdered | backend/main.py:107-122 | the insights' win rates are non-increasing |
| Performance.BestConditionsBeatRest | backend/main.py:107-111 | every tag not chosen has a win rate no higher than any chosen one |
| Performance.BestConditionsStable | backend/main.py:107-111 | for every rate, the chosen (tag, rate) items with that rate are the first tags with that rate in first-seen order; `AnalysisBest` makes their names the report's `bestConditions` and their insights its `patternInsights` |
| Performance.WinningTradeKeepsRate | backend/main.py:100-109 | adding a winning trade that carries an existing tag never lowers that tag's win rate |
| Performance.AnalyzePerformance | backend/main.py:83-123 | the handler's result equals the report specified by `Analysis` |
| Scenarios.ThreeTrades | backend/main.py:83-123 | for trades of +100, -50 and +100 tagged trend-up, trend-up and trend-up+high-vol: win rate 2/3, profit factor 4, averages 100 and 50, high-vol (1) ranked ahead of trend-up (2/3) |
| Patterns.IsVocabulary | backend/main.py:141 | the union set of all trades' tags, iterated in an unspecified order: a duplicate-free sequence with exactly the tags of the trades; no contract of its own, `VocabularySize` and `VocabularyExists` state what it admits |
| Patterns.VocabularyExists | backend/main.py:141 | some vocabulary exists for every trade list: the tags in first-seen order are one |
| Patterns.VocabularySize | backend/main.py:141 | the vocabulary has one entry per distinct tag |
| Patterns.FeatureNames | backend/main.py:157 | the feature names are "trade_type", "position_size", then the vocabulary in order |
| Patterns.ConditionFeatures | backend/main.py:139-142 | one entry per vocabulary tag, 1 exactly when the trade lists the tag and 0 otherwise |
| Patterns.FeatureRow | backend/main.py:144-148 | a row is as wide as the feature names; entry 0 is 1 exactly for a long trade, entry 1 is the size, entry 2+k is 1 exactly when the trade lists tag k |
| Patterns.Label | backend/main.py:150 | the label is 1 exactly for a winning trade and 0 otherwise |
| Patterns.FeatureMatrix | backend/main.py:137-148 | one feature row per trade; no contract of its own, `EncodingShape` and `RowRecoversTrade` state its shape and content and `EncodeFeatures` proves the loop builds it |
| Patterns.Labels | backend/main.py:150 | one label per trade; no contract of its own, `EncodingShape` and `LabelsCountWins` state its content |
| Patterns.RowRecoversTrade | backend/main.py:137-148 | from a trade's row one reads back whether it is long, its size and the set of its tags |
| Patterns.LabelsCountWins | backend/main.py:150 | the labels hold as many 1s as there are winning trades and 0 for the rest |
| Patterns.EncodingShape | backend/main.py:134-150 | one row and one label per trade, every row as wide as the feature names, condition entries 0 or 1, label 1 exactly for a win |
| Patterns.EncodeFeatures | backend/main.py:134-150 | the loop produces exactly the encoded rows and labels of all trades in trade order |
| Patterns.Zip | backend/main.py:158 | `zip` pairs the i-th name with the i-th score and stops at the shorter list |
| Patterns.Report | backend/main.py:158-168 | the factors and patterns built from the feature names and importances; no contract of its own, `ReportFactors` and `ReportPatterns` state them |
| Patterns.ReportFactors | backend/main.py:158-164 | min(5, n) factors in non-increasing importance, drawn from the (name, importance) pairs, each at least as important as every pair left out, ties in input order |
| Patterns.ReportPatterns | backend/main.py:165-168 | min(3, n) patterns, the i-th naming the i-th factor |
| Patterns.PatternAnalysis | backend/main.py:127-131 | the pattern report fails exactly below 10 trades, and then with 400 "Need at least 10 trades for pattern analysis" |
| Patterns.PatternAnalysisSizes | backend/main.py:157-168 | with one importance per feature, the report lists min(5, 2 + number of tags) factors and min(3, 2 + number of tags) patterns |
| Patterns.AnalyzePatterns | backend/main.py:125-169 | the handler's result equals the report specified by `PatternAnalysis` for the encoded trades |

## Left out

- FastAPI, CORS, routing, pydantic validation and the transport of `HTTPException` (backend/main.py:1-20, 56-76): errors are a `Failure` result carrying the status code and detail.
- The in-memory `trades` and `market_conditions` lists and their endpoints (backend/main.py:51-76): the handlers take the trade list as a parameter.
- The image upload stub (backend/main.py:78-81): it does I/O and nothing else.
- The fields `entry_date`, `symbol`, `notes`, `chart_images` and the `MarketCondition` record: the analytics never read them.
- `RandomForestClassifier` fitting (backend/main.py:153-154): a foreign library with internal randomness. The model takes the importances as a function of the feature rows and labels, and proves nothing about their values.
- Patterns.AnalyzePatterns: the vocabulary is a parameter constrained by `IsVocabulary`, because Python's set iteration order is unspecified. The model does not compute the set itself.
- Floating-point arithmetic, `np.mean` rounding and NaN: prices and sizes are exact reals.
- Performance.BestConditionsInsights: an insight carries the condition and its rate as a real. The text "Best win rate in …: …%" with its `*100` and `:.1f` formatting is not modelled.
- Patterns.ReportPatterns: a pattern carries the factor's name. The sentence "High correlation between … and profitable trades" is not modelled.
- Patterns.ReportFactors: `float(score)` is the identity on reals.
