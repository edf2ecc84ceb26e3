/** Official candles as they arrive. */
module CandleHistory {
  import opened Basics
  import opened CandleRules
  import opened CandleRuns

  /** A historical response: parallel arrays, an entry None where it is no number. */
  datatype Response = Response(
    timestamp: seq<Option<int>>, open: seq<Option<real>>, high: seq<Option<real>>, low: seq<Option<real>>,
    close: seq<Option<real>>, volume: seq<Option<int>>)
  {
    predicate Consistent() { |open| == |high| == |low| == |close| == |volume| == |timestamp| }
  }

  /** A row with all its numbers, positive prices and the geometry of a bar. */
  predicate Usable(r: Response, i: nat)
    requires r.Consistent() && i < |r.timestamp|
  {
    && r.timestamp[i].Some? && r.open[i].Some? && r.high[i].Some? && r.low[i].Some? && r.close[i].Some?
    && r.volume[i].Some? && r.timestamp[i].value > 0 && r.volume[i].value >= 0
    && MinReal(MinReal(r.open[i].value, r.high[i].value), MinReal(r.low[i].value, r.close[i].value)) > 0.0
    && r.high[i].value >= MaxReal(r.open[i].value, r.close[i].value)
    && r.low[i].value <= MinReal(r.open[i].value, r.close[i].value)
  }

  function CandleOf(r: Response, i: nat): Candle
    requires r.Consistent() && i < |r.timestamp| && Usable(r, i)
  {
    Candle(Seconds(r.timestamp[i].value), Absent, r.open[i], r.high[i], r.low[i], r.close[i], r.volume[i].value,
           Historical, Some(true))
  }

  /** The usable ones of the first `n` rows, in order. */
  function Taken(r: Response, n: nat): seq<Candle>
    requires r.Consistent() && n <= |r.timestamp|
  {
    if n == 0 then [] else Taken(r, n - 1) + if Usable(r, n - 1) then [CandleOf(r, n - 1)] else []
  }

  /** What every row handed on promises: official, complete, dated, priced, and shaped like a bar. */
  ghost predicate Fetched(c: Candle) {
    c.source == Historical && c.complete == Some(true) && MinuteKey(c).Some? && c.HasPrices() &&
    0.0 < c.low.value <= MinReal(c.open.value, c.close.value) &&
    MaxReal(c.open.value, c.close.value) <= c.high.value && c.volume >= 0
  }

  /** All six entries are there, the time positive, the volume not negative, the prices a bar's and above zero. */
  predicate GoodRow(r: Response, i: nat)
    requires r.Consistent() && i < |r.timestamp|
  {
    r.timestamp[i].Some? && r.volume[i].Some? && r.timestamp[i].value > 0 && r.volume[i].value >= 0 &&
    r.open[i].Some? && r.high[i].Some? && r.low[i].Some? && r.close[i].Some? && 0.0 < r.low[i].value &&
    r.low[i].value <= r.open[i].value <= r.high[i].value && r.low[i].value <= r.close[i].value <= r.high[i].value
  }

  /** The candle has the row's entries, each under its own name, and no epoch of its own. */
  predicate FromRow(c: Candle, r: Response, i: nat)
    requires r.Consistent() && i < |r.timestamp|
  {
    r.timestamp[i].Some? && c.timestamp == Seconds(r.timestamp[i].value) && c.epoch == Absent &&
    c.open == r.open[i] && c.high == r.high[i] && c.low == r.low[i] && c.close == r.close[i] &&
    Some(c.volume) == r.volume[i] && c.source == Historical && c.complete == Some(true)
  }

  /** The candles are the good rows among the first `n`, at these positions and so in order. */
  ghost predicate Lists(candles: seq<Candle>, r: Response, n: nat, at: seq<nat>)
    requires r.Consistent() && n <= |r.timestamp|
  {
    |at| == |candles| && (forall k :: 0 <= k < |at| ==> at[k] < n && FromRow(candles[k], r, at[k])) &&
    (forall j, k :: 0 <= j < k < |at| ==> at[j] < at[k]) &&
    forall i :: 0 <= i < n ==> (i in at <==> GoodRow(r, i))
  }

  lemma UsableIsGood(r: Response, i: nat)
    requires r.Consistent() && i < |r.timestamp|
    ensures Usable(r, i) <==> GoodRow(r, i)
    ensures Usable(r, i) ==> FromRow(CandleOf(r, i), r, i)
  {
  }

  lemma ListMore(candles: seq<Candle>, r: Response, n: nat, at: seq<nat>)
    requires r.Consistent() && n < |r.timestamp| && Lists(candles, r, n, at)
    ensures Usable(r, n) ==> Lists(candles + [CandleOf(r, n)], r, n + 1, at + [n])
    ensures !Usable(r, n) ==> Lists(candles, r, n + 1, at)
  {
    UsableIsGood(r, n);
    hide Usable, CandleOf, GoodRow, FromRow;
    forall i | 0 <= i < n + 1 ensures i in at + [n] <==> i in at || i == n {}
    assert n !in at;
  }

  lemma {:induction false} TakenLists(r: Response, n: nat) returns (at: seq<nat>)
    requires r.Consistent() && n <= |r.timestamp|
    ensures Lists(Taken(r, n), r, n, at)
  {
    at := [];
    if n > 0 {
      at := TakenLists(r, n - 1);
      ListMore(Taken(r, n - 1), r, n - 1, at);
      assert Taken(r, n - 1) + [] == Taken(r, n - 1);
      if Usable(r, n - 1) { at := at + [n - 1]; }
    }
  }

  /** `_candles_from_arrays`: None for arrays of unequal lengths, otherwise the usable rows in order. */
  method CandlesFromArrays(r: Response) returns (candles: Option<seq<Candle>>)
    ensures candles.None? <==> !r.Consistent()
    ensures candles.Some? ==> exists at :: Lists(candles.value, r, |r.timestamp|, at)
    ensures candles.Some? ==> forall k :: 0 <= k < |candles.value| ==> Fetched(candles.value[k])
  {
    if !r.Consistent() { return None; }
    var rows: seq<Candle> := [];
    for i := 0 to |r.timestamp|
      invariant rows == Taken(r, i)
      invariant forall k :: 0 <= k < |rows| ==> Fetched(rows[k])
    {
      if Usable(r, i) { rows := rows + [CandleOf(r, i)]; }
    }
    ghost var at := TakenLists(r, |r.timestamp|);
    candles := Some(rows);
  }

  /** History rows as the callers of a merge pass them: any selection of fetched ones. */
  ghost predicate FetchedRows(rows: seq<Option<Candle>>) {
    forall i :: 0 <= i < |rows| ==> rows[i].Some? && Fetched(rows[i].value)
  }

  /**
   * So from an empty book, under every interleaving of quotes, finalisations, seeds and merges of fetched
   * rows, the served list is exactly the completed list.
   */
  lemma SessionServesCompleted(steps: seq<Step>)
    requires forall i :: 0 <= i < |steps| && steps[i].Merged? ==> FetchedRows(steps[i].rows)
    ensures Served(RunFrom(EmptyBook, steps)) == RunFrom(EmptyBook, steps).completed
  {
    RunsServeCompleted(EmptyBook, steps);
  }
}
