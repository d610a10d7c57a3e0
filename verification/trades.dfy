/** The trade record of the journal and what the analytics derive from a
    single trade: its profit or loss and whether it is a win. */
module Trades {
  import opened Sequences

  /** A journal entry, reduced to the fields the analytics read. Prices and
      sizes are exact reals; the record layer does not check their sign. */
  datatype Trade = Trade(
    entryPrice: real,
    exitPrice: real,
    positionSize: real,
    tradeType: string,
    marketConditions: seq<string>)

  /** The only trade type with multiplier +1; every other string is short. */
  const Long: string := "long"

  /** Profit (positive) or loss (negative) of one trade. */
  function ProfitLoss(t: Trade): (pl: real)
    ensures t.tradeType == Long ==> pl == (t.exitPrice - t.entryPrice) * t.positionSize
    ensures t.tradeType != Long ==> pl == (t.entryPrice - t.exitPrice) * t.positionSize
  {
    var multiplier := if t.tradeType == Long then 1.0 else -1.0;
    multiplier * (t.exitPrice - t.entryPrice) * t.positionSize
  }

  /** A trade wins when its profit/loss is strictly positive; a trade that
      breaks even is not a win. */
  predicate IsWin(t: Trade)
  {
    ProfitLoss(t) > 0.0
  }

  /** With a positive size, a long trade wins exactly when the price rose,
      and any other trade wins exactly when the price fell. */
  lemma WinDirection(t: Trade)
    requires t.positionSize > 0.0
    ensures IsWin(t) <==>
      (if t.tradeType == Long then t.exitPrice > t.entryPrice else t.exitPrice < t.entryPrice)
  {
    var move := t.exitPrice - t.entryPrice;
    SignOfProduct(move, t.positionSize);
    SignOfProduct(-move, t.positionSize);
  }

  lemma SignOfProduct(a: real, b: real)
    requires b > 0.0
    ensures a * b > 0.0 <==> a > 0.0
  {
    if a > 0.0 {
      assert a * b > 0.0;
    } else {
      assert a * b <= 0.0;
    }
  }

  /** A trade loses when its profit/loss is strictly negative. */
  predicate IsLoss(t: Trade)
  {
    ProfitLoss(t) < 0.0
  }

  /** The trades `keep` accepts, in trade order: the list comprehension
      `[t for t in ts if keep(t)]`. */
  function Select(ts: seq<Trade>, keep: Trade -> bool): (s: seq<Trade>)
    ensures |s| <= |ts|
    ensures forall i :: 0 <= i < |s| ==> keep(s[i])
    ensures |s| == 0 <==> forall i :: 0 <= i < |ts| ==> !keep(ts[i])
    ensures |s| == |ts| <==> forall i :: 0 <= i < |ts| ==> keep(ts[i])
  {
    if ts == [] then []
    else
      var last := ts[|ts| - 1];
      var prev := Select(ts[..|ts| - 1], keep);
      assert ts == ts[..|ts| - 1] + [last];
      if keep(last) then prev + [last] else prev
  }

  /** The selection has exactly one entry per accepted position. */
  lemma {:induction false} SelectCount(ts: seq<Trade>, keep: Trade -> bool)
    ensures |Select(ts, keep)| == |set i | 0 <= i < |ts| && keep(ts[i])|
  {
    if ts != [] {
      var n := |ts| - 1;
      var prefix := ts[..n];
      SelectCount(prefix, keep);
      var before := set i | 0 <= i < n && keep(prefix[i]);
      var all := set i | 0 <= i < |ts| && keep(ts[i]);
      assert n !in before;
      if keep(ts[n]) {
        assert all == before + {n};
      } else {
        assert all == before;
      }
    }
  }

  /** Selecting from a prefix of the trades gives a prefix of the
      selection. */
  lemma {:induction false} SelectPrefix(ts: seq<Trade>, keep: Trade -> bool, j: nat)
    requires j <= |ts|
    ensures Select(ts[..j], keep) <= Select(ts, keep)
  {
    if j < |ts| {
      var prefix := ts[..|ts| - 1];
      SelectPrefix(prefix, keep, j);
      assert prefix[..j] == ts[..j];
    } else {
      assert ts[..j] == ts;
    }
  }

  /** Order is kept: an accepted trade sits in the selection right after
      the trades accepted before it. */
  lemma SelectPosition(ts: seq<Trade>, keep: Trade -> bool, i: nat)
    requires i < |ts| && keep(ts[i])
    ensures |Select(ts[..i], keep)| < |Select(ts, keep)|
    ensures Select(ts, keep)[|Select(ts[..i], keep)|] == ts[i]
  {
    var upto := ts[..i + 1];
    assert upto[..i] == ts[..i];
    assert Select(upto, keep) == Select(ts[..i], keep) + [ts[i]];
    SelectPrefix(ts, keep, i + 1);
  }

  /** The winning trades, in trade order (line 89). */
  function Winners(ts: seq<Trade>): (w: seq<Trade>)
    ensures |w| <= |ts|
    ensures forall i :: 0 <= i < |w| ==> IsWin(w[i])
    ensures |w| == 0 <==> forall i :: 0 <= i < |ts| ==> !IsWin(ts[i])
    ensures |w| == |ts| <==> forall i :: 0 <= i < |ts| ==> IsWin(ts[i])
  {
    Select(ts, IsWin)
  }

  /** The losing trades, in trade order. */
  function Losers(ts: seq<Trade>): (l: seq<Trade>)
    ensures forall i :: 0 <= i < |l| ==> IsLoss(l[i])
    ensures |l| == 0 <==> forall i :: 0 <= i < |ts| ==> !IsLoss(ts[i])
  {
    Select(ts, IsLoss)
  }

  /** The market-condition tags of all trades, concatenated in trade order,
      repeated tags included. */
  function AllTags(ts: seq<Trade>): seq<string>
  {
    if ts == [] then []
    else AllTags(ts[..|ts| - 1]) + ts[|ts| - 1].marketConditions
  }

  /** A tag of any trade is among all tags. */
  lemma {:induction false} TradeTagsInAll(ts: seq<Trade>, i: nat, c: string)
    requires i < |ts| && c in ts[i].marketConditions
    ensures c in AllTags(ts)
  {
    if i < |ts| - 1 {
      TradeTagsInAll(ts[..|ts| - 1], i, c);
    }
  }

  /** Every tag among all tags comes from some trade's condition list. */
  lemma {:induction false} TagOrigin(ts: seq<Trade>, c: string)
    requires c in AllTags(ts)
    ensures exists i :: 0 <= i < |ts| && c in ts[i].marketConditions
  {
    var n := |ts| - 1;
    if c in AllTags(ts[..n]) {
      TagOrigin(ts[..n], c);
      var i :| 0 <= i < n && c in ts[..n][i].marketConditions;
      assert ts[i] == ts[..n][i];
    } else {
      assert c in ts[n].marketConditions;
    }
  }

  /** The failure the HTTP layer reports, with its status code and detail. */
  datatype HttpError = HttpError(status: int, detail: string)

  const NotFound := HttpError(404, "No trades found")
  const BadRequest := HttpError(400, "Need at least 10 trades for pattern analysis")

  datatype Result<T> = Success(value: T) | Failure(error: HttpError)
}
