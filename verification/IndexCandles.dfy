/** The index layer's candles. */
module IndexCandles {
  // The same quotes are folded the same way as for equities, but a minute that is filed twice
  // follows another rule.

  import opened Basics
  import opened OrderedRows
  import opened CandleRules
  import CandleState
  import CandleTicks

  /** An index book is filed under raw timestamps, and its cumulative volume starts at 0. */
  function Raw(c: Candle): int { if c.timestamp.Seconds? then c.timestamp.value else 0 }

  predicate Dated(c: Candle) { c.timestamp.Seconds? }

  const EmptyIndexBook := Book([], None, Some(0), None)

  /** `_store_complete`: a minute that is filed already keeps its candle. */
  function Store(rows: seq<Candle>, c: Candle): seq<Candle> {
    if rows != [] && Raw(rows[|rows| - 1]) >= Raw(c) then
      if Find(rows, Raw, Raw(c)) < |rows| then rows else SortRows(rows + [c], Raw)
    else rows + [c]
  }

  /** `update_quote` of a live session. */
  function IndexTick(b: Book, q: Quote): Book {
    if !q.Valid() then b
    else if b.current.Some? && q.Minute() < EpochOf(b.current.value) then b
    else
      var closing := b.current.Some? && q.Minute() > EpochOf(b.current.value);
      var completed := if closing then Store(b.completed, Completed(b.current.value)) else b.completed;
      var current := if closing then None else b.current;
      var delta := MaxInt(0, q.volume - if b.volume.Some? then b.volume.value else 0);
      if b.lastTrade == Some(q.Trade()) then Book(completed, current, Some(q.volume), b.lastTrade)
      else
        Book(completed, Some(if current.None? then NewCandle(q, delta) else Extend(current.value, q, delta)),
             Some(q.volume), Some(q.Trade()))
  }

  function IndexFinalize(b: Book): Book {
    if b.current.None? then b else b.(completed := Store(b.completed, Completed(b.current.value)), current := None)
  }

  /** Complete rows filed by timestamp, a later one replacing an earlier one. */
  function FileRows(m: map<int, Candle>, rows: seq<Candle>): map<int, Candle> {
    if rows == [] then m
    else
      var before, c := FileRows(m, rows[..|rows| - 1]), rows[|rows| - 1];
      if c.IsComplete() then before[Raw(c) := c] else before
  }

  /** A complete row without a readable timestamp stops the whole merge. */
  predicate Mergeable(rows: seq<Candle>) { forall i :: 0 <= i < |rows| && rows[i].IsComplete() ==> Dated(rows[i]) }

  /** `merge_today_1m`: the open candle is left alone. */
  ghost function IndexMerge(b: Book, rows: seq<Candle>): Book {
    if !Mergeable(rows) then b else b.(completed := InOrder(FileRows(FileRows(map[], b.completed), rows)))
  }

  // ---- What stays true ----

  ghost predicate DatedRows(rows: seq<Candle>) {
    forall i :: 0 <= i < |rows| ==> Dated(rows[i]) && rows[i].IsComplete()
  }

  ghost predicate IndexRows(rows: seq<Candle>) { Strict(rows, Raw) && DatedRows(rows) }

  ghost predicate IndexGood(b: Book) { IndexRows(b.completed) && (b.current.Some? ==> Open(b.current.value)) }

  ghost function StoredAt(rows: seq<Candle>, t: int): Option<Candle> { At(rows, Raw, t) }

  /** Storing never replaces a candle; a new minute is filed in order. */
  lemma StoringOne(rows: seq<Candle>, c: Candle)
    requires IndexRows(rows) && Dated(c) && c.IsComplete()
    ensures IndexRows(Store(rows, c))
    ensures forall t :: StoredAt(Store(rows, c), t) ==
                   if StoredAt(rows, t).Some? then StoredAt(rows, t) else if t == Raw(c) then Some(c) else None
  {
    if rows != [] && Raw(rows[|rows| - 1]) >= Raw(c) {
      if Find(rows, Raw, Raw(c)) == |rows| {
        SortOfSorted(rows, Raw);
        assert (rows + [c])[..|rows|] == rows;
        InsertFiles(rows, Raw, c);
        InsertDated(rows, c);
      }
    } else {
      AppendFiles(rows, Raw, c);
      if rows != [] { LastIsGreatest(rows, Raw, Raw(c)); }
    }
  }

  lemma {:induction false} InsertDated(rows: seq<Candle>, c: Candle)
    requires DatedRows(rows) && Dated(c) && c.IsComplete()
    ensures DatedRows(InsertRow(rows, Raw, c))
  {
    if rows != [] && Raw(rows[|rows| - 1]) > Raw(c) {
      InsertDated(rows[..|rows| - 1], c);
      var inner := InsertRow(rows[..|rows| - 1], Raw, c);
      assert InsertRow(rows, Raw, c) == inner + [rows[|rows| - 1]];
    } else {
      assert InsertRow(rows, Raw, c) == rows + [c];
    }
  }

  /** The last complete row of a timestamp, if any. */
  function LastRow(rows: seq<Candle>, t: int): Option<Candle> {
    if rows == [] then None
    else
      var c := rows[|rows| - 1];
      if c.IsComplete() && Raw(c) == t then Some(c) else LastRow(rows[..|rows| - 1], t)
  }

  ghost predicate Fileable(m: map<int, Candle>) {
    Filed(m, Raw) && forall k :: k in m ==> Dated(m[k]) && m[k].IsComplete()
  }

  lemma {:induction false} FilingRows(m: map<int, Candle>, rows: seq<Candle>)
    requires Fileable(m) && Mergeable(rows)
    ensures Fileable(FileRows(m, rows))
    ensures forall t :: Lookup(FileRows(m, rows), t) ==
                        if LastRow(rows, t).Some? then LastRow(rows, t) else Lookup(m, t)
  {
    if rows != [] { FilingRows(m, rows[..|rows| - 1]); }
  }

  lemma {:induction false} LastRowOfStrict(rows: seq<Candle>, t: int)
    requires IndexRows(rows)
    ensures LastRow(rows, t) == StoredAt(rows, t)
  {
    if rows != [] {
      LastRowOfStrict(rows[..|rows| - 1], t);
      AtPrefix(rows, Raw, t);
      AtStrict(rows, Raw, |rows| - 1);
    }
  }

  lemma ListedRows(m: map<int, Candle>)
    requires Fileable(m)
    ensures IndexRows(InOrder(m))
    ensures forall t :: StoredAt(InOrder(m), t) == Lookup(m, t)
  {
    InOrderFiles(m, Raw);
    var keys := SortedKeys(m.Keys);
    SortedKeysExact(m.Keys);
    assert forall i :: 0 <= i < |keys| ==> keys[i] in keys;
    ValuesAt(m, keys);
  }

  /** A merge replaces exactly the timestamps it brings, with its last row for each. */
  lemma Merging(b: Book, rows: seq<Candle>)
    requires IndexGood(b) && Mergeable(rows)
    ensures IndexGood(IndexMerge(b, rows)) && IndexMerge(b, rows).current == b.current
    ensures forall t :: StoredAt(IndexMerge(b, rows).completed, t) ==
                   if LastRow(rows, t).Some? then LastRow(rows, t) else StoredAt(b.completed, t)
  {
    var existing := FileRows(map[], b.completed);
    FilingRows(map[], b.completed);
    FilingRows(existing, rows);
    ListedRows(FileRows(existing, rows));
    forall t ensures LastRow(b.completed, t) == StoredAt(b.completed, t) { LastRowOfStrict(b.completed, t); }
    assert forall t :: Lookup(existing, t) == LastRow(b.completed, t);
  }

  // ---- Every interleaving ----

  datatype Step = Quoted(quote: Quote) | Merged(rows: seq<Candle>) | Finalized

  ghost function Take(b: Book, step: Step): Book {
    match step
    case Quoted(q) => IndexTick(b, q)
    case Merged(rows) => IndexMerge(b, rows)
    case Finalized => IndexFinalize(b)
  }

  ghost function RunFrom(b: Book, steps: seq<Step>): Book {
    if steps == [] then b else Take(RunFrom(b, steps[..|steps| - 1]), steps[|steps| - 1])
  }

  ghost predicate Covered(b: Book, t: int) {
    StoredAt(b.completed, t).Some? || (b.current.Some? && Raw(b.current.value) == t)
  }

  /** A step that may put another candle at a timestamp. */
  ghost predicate Brings(step: Step, t: int) { step.Merged? && Mergeable(step.rows) && LastRow(step.rows, t).Some? }

  lemma StoreKeeps(b: Book, c: Candle, after: Book)
    requires IndexGood(b) && b.current.Some? && c == Completed(b.current.value)
    requires after.completed == Store(b.completed, c)
    ensures IndexRows(after.completed)
    ensures forall t :: Covered(b, t) ==> Covered(after, t)
    ensures forall t :: StoredAt(b.completed, t).Some? ==> StoredAt(after.completed, t) == StoredAt(b.completed, t)
  {
    StoringOne(b.completed, c);
  }

  lemma IndexTickKeeps(b: Book, q: Quote)
    requires IndexGood(b)
    ensures IndexGood(IndexTick(b, q))
    ensures forall t :: Covered(b, t) ==> Covered(IndexTick(b, q), t)
    ensures forall t :: StoredAt(b.completed, t).Some? ==>
            StoredAt(IndexTick(b, q).completed, t) == StoredAt(b.completed, t)
  {
    hide Store, Strict;
    if b.current.Some? && IndexTick(b, q).completed == Store(b.completed, Completed(b.current.value)) {
      StoreKeeps(b, Completed(b.current.value), IndexTick(b, q));
    }
  }

  ghost predicate Carries(b: Book, after: Book, step: Step) {
    (forall t :: Covered(b, t) ==> Covered(after, t)) &&
    (forall t :: StoredAt(b.completed, t).Some? ==> StoredAt(after.completed, t).Some?) &&
    forall t :: StoredAt(b.completed, t).Some? && !Brings(step, t) ==>
                StoredAt(after.completed, t) == StoredAt(b.completed, t)
  }

  lemma MergeCarries(b: Book, rows: seq<Candle>)
    requires IndexGood(b)
    ensures IndexGood(IndexMerge(b, rows)) && Carries(b, IndexMerge(b, rows), Merged(rows))
  {
    if Mergeable(rows) {
      Merging(b, rows);
      hide IndexMerge, IndexGood, StoredAt, LastRow;
    }
  }

  lemma FinalizeCarries(b: Book)
    requires IndexGood(b)
    ensures IndexGood(IndexFinalize(b)) && Carries(b, IndexFinalize(b), Finalized)
  {
    hide Store, IndexRows, StoredAt;
    if b.current.Some? { StoreKeeps(b, Completed(b.current.value), IndexFinalize(b)); }
  }

  lemma TakeKeeps(b: Book, step: Step)
    requires IndexGood(b)
    ensures IndexGood(Take(b, step)) && Carries(b, Take(b, step), step)
  {
    match step
    case Quoted(q) =>
      IndexTickKeeps(b, q);
      hide IndexTick, IndexGood, StoredAt, Covered;
    case Merged(rows) => MergeCarries(b, rows);
    case Finalized => FinalizeCarries(b);
  }

  /**
   * Whatever the interleaving: timestamps rise strictly, none covered is lost, and a completed candle
   * changes only through a merge that brings its timestamp, so no late quote ever replaces one.
   */
  lemma {:induction false} IndexInterleavingsKeep(b: Book, steps: seq<Step>, t: int)
    requires IndexGood(b)
    ensures IndexGood(RunFrom(b, steps))
    ensures Covered(b, t) ==> Covered(RunFrom(b, steps), t)
    ensures StoredAt(b.completed, t).Some? ==> StoredAt(RunFrom(b, steps).completed, t).Some?
    ensures StoredAt(b.completed, t).Some? && (forall i :: 0 <= i < |steps| ==> !Brings(steps[i], t)) ==>
              StoredAt(RunFrom(b, steps).completed, t) == StoredAt(b.completed, t)
  {
    if steps != [] {
      hide Take, IndexGood, StoredAt, Covered, Brings;
      var before := steps[..|steps| - 1];
      IndexInterleavingsKeep(b, before, t);
      TakeKeeps(RunFrom(b, before), steps[|steps| - 1]);
      assert forall i :: 0 <= i < |before| ==> steps[i] == before[i];
    }
  }

  // ---- Without merges ----

  function RunQuotes(b: Book, quotes: seq<Quote>): Book {
    if quotes == [] then b else IndexTick(RunQuotes(b, quotes[..|quotes| - 1]), quotes[|quotes| - 1])
  }

  /** A candle of a later minute goes to the end under either rule. */
  lemma SameFiling(rows: seq<Candle>, c: Candle)
    requires StrictMinutes(rows) && MinuteKey(c).Some? && c.IsComplete() && Dated(c) && c.timestamp == c.epoch
    requires forall i :: 0 <= i < |rows| ==> Dated(rows[i]) && rows[i].timestamp == rows[i].epoch
    requires rows != [] ==> SortKey(rows[|rows| - 1]) < SortKey(c)
    ensures Store(rows, c) == Append(rows, c) == rows + [c]
  {
    AppendAtEnd(rows, c);
  }

  lemma SameTick(b: Book, a: seq<CandleTicks.ValidQuote>, q: Quote)
    requires CandleTicks.Reads(b, a, Some(0)) && CandleTicks.RisingMinutes(a)
    ensures IndexTick(b, q) == Tick(b, q)
  {
    hide CandleTicks.Bar, CandleTicks.MinutesOf, CandleTicks.RisingMinutes, Append, Store;
    if b.current.Some? {
      CandleTicks.ReadsStrict(b, a, Some(0));
      var d := CandleTicks.MinutesOf(a);
      forall i | 0 <= i < |d| ensures Stamped(CandleTicks.Bar(a, Some(0), d[i])) { BarStamped(a, d[i]); }
      SameFiling(b.completed, Completed(b.current.value));
    }
  }

  predicate Stamped(c: Candle) { Dated(c) && c.timestamp == c.epoch }

  lemma BarStamped(a: seq<CandleTicks.ValidQuote>, minute: int)
    ensures Stamped(CandleTicks.Bar(a, Some(0), minute))
  {
  }

  /** On quotes alone an index book is the equity book seeded with a cumulative volume of 0. */
  lemma {:induction false} IndexRunsLikeEquity(quotes: seq<Quote>)
    ensures RunQuotes(EmptyIndexBook, quotes) == CandleTicks.RunQuotes(CandleTicks.Seeded(Some(0)), quotes)
  {
    if quotes != [] {
      hide IndexTick, Tick;
      var init := quotes[..|quotes| - 1];
      IndexRunsLikeEquity(init);
      CandleTicks.CandlesGroupQuotes(init, Some(0));
      CandleTicks.AcceptedRises(CandleTicks.Accepted(init));
      CandleTicks.AcceptedRises(init);
      SameTick(RunQuotes(EmptyIndexBook, init), CandleTicks.Accepted(init), quotes[|quotes| - 1]);
    }
  }

  /** So its candles too are the accepted quotes grouped by minute, and their volumes all upward moves from 0. */
  lemma IndexCandlesGroupQuotes(quotes: seq<Quote>)
    ensures CandleTicks.Reads(RunQuotes(EmptyIndexBook, quotes), CandleTicks.Accepted(quotes), Some(0))
    ensures CandleTicks.BookVolume(RunQuotes(EmptyIndexBook, quotes)) ==
            CandleTicks.AllMoves(CandleTicks.Accepted(quotes), Some(0))
  {
    IndexRunsLikeEquity(quotes);
    CandleTicks.CandlesGroupQuotes(quotes, Some(0));
    CandleTicks.VolumeIsMoves(quotes, Some(0));
  }

  // ---- The state object ----

  class IndexState {
    var live: bool
    var liveCandles: seq<Candle>
    var current1m: Option<Candle>
    var prevCumulativeVolume: int
    var lastTradeKey: Option<Trade>

    constructor ()
      ensures Contents() == EmptyIndexBook && !live
    {
      live, liveCandles, current1m, prevCumulativeVolume, lastTradeKey := false, [], None, 0, None;
    }

    ghost function Contents(): Book
      reads this
    {
      Book(liveCandles, current1m, Some(prevCumulativeVolume), lastTradeKey)
    }

    /** A new session. */
    method Begin()
      modifies this
      ensures Contents() == EmptyIndexBook && live
    {
      live, liveCandles, current1m, prevCumulativeVolume, lastTradeKey := true, [], None, 0, None;
    }

    method Reset()
      modifies this
      ensures Contents() == EmptyIndexBook && !live
    {
      live, liveCandles, current1m, prevCumulativeVolume, lastTradeKey := false, [], None, 0, None;
    }

    method StoreComplete(candle: Candle)
      modifies this`liveCandles
      ensures liveCandles == Store(old(liveCandles), candle)
    {
      var ts := Raw(candle);
      if liveCandles != [] && Raw(liveCandles[|liveCandles| - 1]) >= ts {
        var i := 0;
        while i < |liveCandles|
          invariant i <= |liveCandles| && liveCandles == old(liveCandles)
          invariant forall j :: 0 <= j < i ==> Raw(liveCandles[j]) != ts
        {
          if Raw(liveCandles[i]) == ts { return; }
          i := i + 1;
        }
        liveCandles := SortRows(liveCandles + [candle], Raw);
        return;
      }
      liveCandles := liveCandles + [candle];
    }

    method UpdateQuote(q: Quote)
      modifies this
      ensures live == old(live)
      ensures Contents() == if live then IndexTick(old(Contents()), q) else old(Contents())
    {
      hide Store, NewCandle, Extend, Completed;
      if !q.Valid() || !live { return; }
      if current1m.Some? {
        if q.Minute() < EpochOf(current1m.value) { return; }
        if q.Minute() > EpochOf(current1m.value) {
          StoreComplete(Completed(current1m.value));
          current1m := None;
        }
      }
      var delta := MaxInt(0, q.volume - prevCumulativeVolume);
      prevCumulativeVolume := q.volume;
      if lastTradeKey == Some(q.Trade()) { return; }
      lastTradeKey := Some(q.Trade());
      current1m := Some(if current1m.None? then NewCandle(q, delta) else Extend(current1m.value, q, delta));
    }

    method MergeToday1m(rows: seq<Candle>)
      modifies this`liveCandles
      ensures Contents() == IndexMerge(old(Contents()), rows)
    {
      if !Mergeable(rows) { return; }
      var existing := FileInto(map[], liveCandles);
      existing := FileInto(existing, rows);
      liveCandles := CandleState.ListInOrder(existing);
    }

    method FinalizeCurrent()
      modifies this
      ensures live == old(live) && Contents() == IndexFinalize(old(Contents()))
    {
      if current1m.Some? {
        StoreComplete(Completed(current1m.value));
        current1m := None;
      }
    }
  }

  method FileInto(m: map<int, Candle>, rows: seq<Candle>) returns (filed: map<int, Candle>)
    ensures filed == FileRows(m, rows)
  {
    filed := m;
    for i := 0 to |rows|
      invariant filed == FileRows(m, rows[..i])
    {
      assert rows[..i + 1][..i] == rows[..i];
      if rows[i].IsComplete() { filed := filed[Raw(rows[i]) := rows[i]]; }
    }
    assert rows[..|rows|] == rows;
  }
}
