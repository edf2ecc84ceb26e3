/** Runs of candle operations. */
module CandleRuns {
  import opened Basics
  import opened OrderedRows
  import opened CandleRules

  datatype Step =
    | Quoted(quote: Quote)
    | Merged(rows: seq<Option<Candle>>)
    | Finalized
    | Seeded(volume: int)

  ghost function Take(b: Book, step: Step): Book {
    match step
    case Quoted(q) => Tick(b, q)
    case Merged(rows) => Merge(b, rows)
    case Finalized => Finalize(b)
    case Seeded(volume) => Seed(b, volume)
  }

  ghost function RunFrom(b: Book, steps: seq<Step>): Book {
    if steps == [] then b else Take(RunFrom(b, steps[..|steps| - 1]), steps[|steps| - 1])
  }

  /** A minute the book has a candle for, completed or open. */
  ghost predicate Covered(b: Book, minute: int) {
    CandleAt(b.completed, minute).Some? || CurrentKey(b) == Some(minute)
  }

  ghost predicate Official(b: Book, minute: int) {
    CandleAt(b.completed, minute).Some? && CandleAt(b.completed, minute).value.source == Historical
  }

  /** No minute is lost, completed minutes stay completed, and official ones stay official. */
  ghost predicate Carries(a: Book, b: Book) {
    && (forall k :: Covered(a, k) ==> Covered(b, k))
    && (forall k :: CandleAt(a.completed, k).Some? ==> CandleAt(b.completed, k).Some?)
    && (forall k :: Official(a, k) ==> Official(b, k))
  }

  /** A quote `update_quote` counts: valid, not of an earlier minute than the open one, not a repeat. */
  predicate Counts(b: Book, q: Quote) {
    q.Valid() && !(b.current.Some? && q.Minute() < EpochOf(b.current.value)) && b.lastTrade != Some(q.Trade())
  }

  lemma FilingCarries(b: Book, c: Candle, after: Book)
    requires StrictMinutes(b.completed) && MinuteKey(c).Some? && c.IsComplete()
    requires after.completed == Append(b.completed, c)
    requires b.current.Some? ==> MinuteKey(b.current.value) == MinuteKey(c)
    ensures StrictMinutes(after.completed) && Carries(b, after)
  {
    FilingOne(b.completed, c);
    forall k ensures CandleAt(after.completed, k) == FiledAt(b.completed, c, k) {}
  }

  /** A quote that files nothing. */
  lemma QuietTick(b: Book, q: Quote)
    requires Good(b) && Tick(b, q).completed == b.completed
    requires !(q.Valid() && b.current.Some? && q.Minute() > EpochOf(b.current.value))
    ensures Good(Tick(b, q)) && Carries(b, Tick(b, q))
    ensures Counts(b, q) ==> Covered(Tick(b, q), q.Minute() / 60)
  {
    hide StrictMinutes, CandleAt, Append;
  }

  /** A quote that files the open candle first. */
  lemma FilingTick(b: Book, q: Quote)
    requires Good(b) && q.Valid() && b.current.Some? && q.Minute() > EpochOf(b.current.value)
    ensures Good(Tick(b, q)) && Carries(b, Tick(b, q))
    ensures Counts(b, q) ==> Covered(Tick(b, q), q.Minute() / 60)
  {
    var c, after := Completed(b.current.value), Tick(b, q);
    OpenIsDated(b.current.value);
    FilingCarries(b, c, after);
    hide StrictMinutes, CandleAt, Append, Carries;
  }

  lemma OpenIsDated(c: Candle)
    requires Open(c)
    ensures MinuteKey(Completed(c)) == MinuteKey(c) && MinuteKey(c).Some? && Completed(c).IsComplete()
  {
  }

  lemma TickKeeps(b: Book, q: Quote)
    requires Good(b)
    ensures Good(Tick(b, q)) && Carries(b, Tick(b, q))
    ensures Counts(b, q) ==> Covered(Tick(b, q), q.Minute() / 60)
  {
    hide Good, Carries, Counts, Covered;
    if q.Valid() && b.current.Some? && q.Minute() > EpochOf(b.current.value) {
      FilingTick(b, q);
    } else {
      hide Append;
      QuietTick(b, q);
    }
  }

  lemma MergeKeeps(b: Book, rows: seq<Option<Candle>>)
    requires Good(b)
    ensures Good(Merge(b, rows)) && Carries(b, Merge(b, rows))
  {
    var existing, merged := Existing(b.completed), MergeRows(Existing(b.completed), rows);
    ExistingFiles(b.completed);
    forall k | k in existing ensures MinuteKey(existing[k]).Some? && existing[k].IsComplete() {
      assert Lookup(existing, k) == CandleAt(b.completed, k);
    }
    MergeRowsKeeps(existing, rows);
    InOrderBook(merged);
    forall k ensures CandleAt(Merge(b, rows).completed, k) == Lookup(merged, k) {}
    forall k | CandleAt(b.completed, k).Some? ensures k in merged {
      assert Lookup(existing, k) == CandleAt(b.completed, k);
    }
    forall k | Official(b, k) ensures Official(Merge(b, rows), k) {
      assert Lookup(existing, k) == CandleAt(b.completed, k);
      assert CandleAt(Merge(b, rows).completed, k) == Lookup(merged, k);
    }
  }

  lemma TakeKeeps(b: Book, step: Step)
    requires Good(b)
    ensures Good(Take(b, step)) && Carries(b, Take(b, step))
  {
    match step
    case Quoted(q) => TickKeeps(b, q);
    case Merged(rows) => MergeKeeps(b, rows);
    case Finalized => if b.current.Some? { FilingCarries(b, Completed(b.current.value), Finalize(b)); }
    case Seeded(volume) =>
  }

  /**
   * Whatever the interleaving: completed candles are in strictly rising minutes, and nothing
   * that was covered, completed or official at any earlier moment has stopped being so.
   */
  lemma {:induction false} InterleavingsKeep(b: Book, steps: seq<Step>)
    requires Good(b)
    ensures Good(RunFrom(b, steps)) && Carries(b, RunFrom(b, steps))
  {
    if steps != [] {
      var before := RunFrom(b, steps[..|steps| - 1]);
      InterleavingsKeep(b, steps[..|steps| - 1]);
      TakeKeeps(before, steps[|steps| - 1]);
    }
  }

  lemma {:induction false} RunFromSplit(b: Book, steps: seq<Step>, i: nat)
    requires i <= |steps|
    ensures RunFrom(b, steps) == RunFrom(RunFrom(b, steps[..i]), steps[i..])
    decreases |steps|
  {
    if i == |steps| {
      assert steps[..i] == steps && steps[i..] == [];
    } else {
      var init := steps[..|steps| - 1];
      RunFromSplit(b, init, i);
      assert init[..i] == steps[..i] && steps[i..][..|steps[i..]| - 1] == init[i..];
    }
  }

  /** A quote that counts leaves its minute covered, then and whatever follows. */
  lemma CountedQuoteStaysCovered(b: Book, steps: seq<Step>, i: nat)
    requires Good(b) && i < |steps| && steps[i].Quoted? && Counts(RunFrom(b, steps[..i]), steps[i].quote)
    ensures Covered(RunFrom(b, steps), steps[i].quote.Minute() / 60)
  {
    var before := RunFrom(b, steps[..i]);
    InterleavingsKeep(b, steps[..i]);
    TickKeeps(before, steps[i].quote);
    var upTo := steps[..i + 1];
    assert upTo[..|upTo| - 1] == steps[..i];
    assert RunFrom(b, upTo) == Tick(before, steps[i].quote);
    RunFromSplit(b, steps, i + 1);
    InterleavingsKeep(RunFrom(b, upTo), steps[i + 1..]);
  }

  // ---- When a completed candle changes ----

  /** The open candle is of a minute completed before, unofficially and otherwise than it is itself. */
  ghost predicate Displaces(b: Book, k: int) {
    CurrentKey(b) == Some(k) && CandleAt(b.completed, k).Some? && !Official(b, k) &&
    CandleAt(b.completed, k).value != Completed(b.current.value)
  }

  /** A quote changes the candle of a completed minute exactly when it closes an open candle that displaces it. */
  lemma QuoteReplacesExactlyWhen(b: Book, q: Quote, k: int)
    requires Good(b) && CandleAt(b.completed, k).Some?
    ensures CandleAt(Tick(b, q).completed, k) != CandleAt(b.completed, k) <==>
            q.Valid() && b.current.Some? && q.Minute() > EpochOf(b.current.value) && Displaces(b, k)
  {
    hide StrictMinutes, CandleAt, Append;
    if q.Valid() && b.current.Some? && q.Minute() > EpochOf(b.current.value) {
      FilingChanges(b, k);
    }
  }

  /** And closing every open candle changes it exactly when the open one displaces it. */
  lemma FinalizeReplacesExactlyWhen(b: Book, k: int)
    requires Good(b) && CandleAt(b.completed, k).Some?
    ensures CandleAt(Finalize(b).completed, k) != CandleAt(b.completed, k) <==> Displaces(b, k)
  {
    hide StrictMinutes, CandleAt, Append;
    if b.current.Some? { FilingChanges(b, k); }
  }

  lemma FilingChanges(b: Book, k: int)
    requires Good(b) && CandleAt(b.completed, k).Some? && b.current.Some?
    ensures CandleAt(Append(b.completed, Completed(b.current.value)), k) != CandleAt(b.completed, k) <==>
            Displaces(b, k)
  {
    var c := Completed(b.current.value);
    OpenIsDated(b.current.value);
    FilingOne(b.completed, c);
    assert CandleAt(Append(b.completed, c), k) == FiledAt(b.completed, c, k);
    hide StrictMinutes, Append;
  }

  ghost predicate BringsMinute(rows: seq<Option<Candle>>, k: int) {
    exists i :: 0 <= i < |rows| && rows[i].Some? && rows[i].value.IsComplete() && MinuteKey(rows[i].value) == Some(k)
  }

  lemma {:induction false} UnbroughtMinute(m: map<int, Candle>, rows: seq<Option<Candle>>, k: int)
    requires !BringsMinute(rows, k)
    ensures Lookup(MergeRows(m, rows), k) == Lookup(m, k)
  {
    if rows != [] {
      var init, last := rows[..|rows| - 1], rows[|rows| - 1];
      forall i | 0 <= i < |init| ensures init[i] == rows[i] {}
      UnbroughtMinute(m, init, k);
      assert !(last.Some? && last.value.IsComplete() && MinuteKey(last.value) == Some(k));
    }
  }

  /** A merge leaves every minute it does not bring. */
  lemma MergeLeaves(b: Book, rows: seq<Option<Candle>>, k: int)
    requires Good(b) && !BringsMinute(rows, k)
    ensures CandleAt(Merge(b, rows).completed, k) == CandleAt(b.completed, k)
  {
    var existing := Existing(b.completed);
    ExistingFiles(b.completed);
    assert Lookup(existing, k) == CandleAt(b.completed, k);
    forall j | j in existing ensures MinuteKey(existing[j]).Some? && existing[j].IsComplete() {
      assert Lookup(existing, j) == CandleAt(b.completed, j);
    }
    MergeRowsKeeps(existing, rows);
    UnbroughtMinute(existing, rows, k);
    InOrderBook(MergeRows(existing, rows));
  }

  /** A counted quote opens a candle for a minute that is completed already, and not officially. */
  ghost predicate Reopens(b: Book, step: Step, k: int) {
    step.Quoted? && Counts(b, step.quote) && step.quote.Minute() / 60 == k && CurrentKey(b) != Some(k) &&
    CandleAt(b.completed, k).Some? && !Official(b, k)
  }

  ghost predicate Touches(b: Book, step: Step, k: int) {
    Reopens(b, step, k) || (step.Merged? && BringsMinute(step.rows, k))
  }

  /** A completed candle whose minute is not open, or that is official, so that nothing can displace it. */
  ghost predicate Settled(b: Book, k: int, c: Candle) {
    CandleAt(b.completed, k) == Some(c) && (CurrentKey(b) == Some(k) ==> c.source == Historical)
  }

  lemma SettledTick(b: Book, q: Quote, k: int, c: Candle)
    requires Good(b) && Settled(b, k, c) && !Reopens(b, Quoted(q), k)
    ensures Settled(Tick(b, q), k, c)
  {
    QuoteReplacesExactlyWhen(b, q, k);
    hide StrictMinutes, CandleAt, Append;
  }

  lemma SettledStep(b: Book, step: Step, k: int, c: Candle)
    requires Good(b) && Settled(b, k, c) && !Touches(b, step, k)
    ensures Settled(Take(b, step), k, c)
  {
    hide CandleAt, Good, Tick;
    match step
    case Quoted(q) => SettledTick(b, q, k, c);
    case Merged(rows) => MergeLeaves(b, rows, k);
    case Finalized => FinalizeReplacesExactlyWhen(b, k);
    case Seeded(volume) =>
  }

  /**
   * Over whole runs a completed candle keeps its value unless a merge brings its minute or a counted
   * quote opens that minute again while it is completed unofficially.
   */
  lemma {:induction false} CompletedCandlesKeep(b: Book, steps: seq<Step>, k: int, c: Candle)
    requires Good(b) && Settled(b, k, c)
    requires forall i :: 0 <= i < |steps| ==> !Touches(RunFrom(b, steps[..i]), steps[i], k)
    ensures Settled(RunFrom(b, steps), k, c)
  {
    if steps != [] {
      var init, last := steps[..|steps| - 1], steps[|steps| - 1];
      forall i | 0 <= i < |init| ensures !Touches(RunFrom(b, init[..i]), init[i], k) {
        assert init[..i] == steps[..i] && init[i] == steps[i];
      }
      CompletedCandlesKeep(b, init, k, c);
      InterleavingsKeep(b, init);
      SettledStep(RunFrom(b, init), last, k, c);
    }
  }

  // ---- The served list ----

  /** One row of `_dedupe_candles`: incomplete, unpriced and undated rows are skipped. */
  function DedupeRow(m: map<int, Candle>, row: Candle): map<int, Candle> {
    if !row.IsComplete() || !row.HasPrices() || PayloadKey(row).None? then m
    else m[PayloadKey(row).value := if PayloadKey(row).value in m then Prefer(m[PayloadKey(row).value], row) else row]
  }

  function DedupeRows(rows: seq<Candle>): map<int, Candle> {
    if rows == [] then map[] else DedupeRow(DedupeRows(rows[..|rows| - 1]), rows[|rows| - 1])
  }

  /** The candles of a stock's payload: the completed list with the open candle behind it, de-duplicated. */
  ghost function Served(b: Book): seq<Candle> {
    InOrder(DedupeRows(b.completed + (if b.current.Some? then [b.current.value] else [])))
  }

  function WithPrices(rows: seq<Candle>): seq<Candle> {
    if rows == [] then []
    else
      var init, last := WithPrices(rows[..|rows| - 1]), rows[|rows| - 1];
      if last.HasPrices() then init + [last] else init
  }

  lemma {:induction false} WithPricesStrict(rows: seq<Candle>)
    requires StrictMinutes(rows)
    ensures StrictMinutes(WithPrices(rows))
    ensures forall k :: CandleAt(WithPrices(rows), k) ==
                   (if CandleAt(rows, k).Some? && CandleAt(rows, k).value.HasPrices() then CandleAt(rows, k) else None)
    ensures WithPrices(rows) != [] ==>
      SortKey(WithPrices(rows)[|WithPrices(rows)| - 1]) <= SortKey(rows[|rows| - 1])
  {
    if rows != [] {
      var init, last := rows[..|rows| - 1], rows[|rows| - 1];
      WithPricesStrict(init);
      var kept := WithPrices(init);
      if kept != [] { assert SortKey(kept[|kept| - 1]) <= SortKey(init[|init| - 1]) < SortKey(last); }
      if last.HasPrices() {
        OrderedRows.AppendFiles(kept, SortKey, last);
      }
      forall k ensures CandleAt(WithPrices(rows), k) ==
                  (if CandleAt(rows, k).Some? && CandleAt(rows, k).value.HasPrices() then CandleAt(rows, k) else None)
      {
        AtPrefix(rows, SortKey, k);
        AtStrict(rows, SortKey, |rows| - 1);
        assert CandleAt(init, k) == if SortKey(last) == k then None else CandleAt(rows, k);
      }
    }
  }

  lemma {:induction false} DedupeStrict(rows: seq<Candle>)
    requires StrictMinutes(rows)
    ensures Bookable(DedupeRows(rows))
    ensures forall k :: Lookup(DedupeRows(rows), k) ==
                   (if CandleAt(rows, k).Some? && CandleAt(rows, k).value.HasPrices() then CandleAt(rows, k) else None)
  {
    if rows != [] {
      var init, last := rows[..|rows| - 1], rows[|rows| - 1];
      DedupeStrict(init);
      AtPrefix(rows, SortKey, SortKey(last));
      assert CandleAt(init, SortKey(last)) == None;
      assert Lookup(DedupeRows(init), SortKey(last)) == None;
      forall k ensures Lookup(DedupeRows(rows), k) ==
                  (if CandleAt(rows, k).Some? && CandleAt(rows, k).value.HasPrices() then CandleAt(rows, k) else None)
      {
        AtPrefix(rows, SortKey, k);
        AtStrict(rows, SortKey, |rows| - 1);
        assert CandleAt(init, k) == if SortKey(last) == k then None else CandleAt(rows, k);
        assert DedupeRows(rows) == DedupeRow(DedupeRows(init), last);
      }
    }
  }

  /**
   * What is served is the completed list without its unpriced candles. It is exactly the
   * completed list if and only if every completed candle carries its four prices.
   */
  lemma ServedIsCompleted(b: Book)
    requires Good(b)
    ensures Served(b) == WithPrices(b.completed)
    ensures Served(b) == b.completed <==> forall i :: 0 <= i < |b.completed| ==> b.completed[i].HasPrices()
  {
    var rows := b.completed + (if b.current.Some? then [b.current.value] else []);
    if b.current.Some? {
      assert rows[..|rows| - 1] == b.completed;
      assert DedupeRows(rows) == DedupeRows(b.completed);
    } else {
      assert rows == b.completed;
    }
    DedupeStrict(b.completed);
    InOrderBook(DedupeRows(b.completed));
    WithPricesStrict(b.completed);
    forall k ensures At(Served(b), SortKey, k) == At(WithPrices(b.completed), SortKey, k) {
      assert CandleAt(WithPrices(b.completed), k) == At(WithPrices(b.completed), SortKey, k);
      assert CandleAt(InOrder(DedupeRows(b.completed)), k) == Lookup(DedupeRows(b.completed), k);
    }
    SameList(Served(b), WithPrices(b.completed), SortKey);
    WithPricesAll(b.completed);
  }

  lemma {:induction false} WithPricesAll(rows: seq<Candle>)
    ensures |WithPrices(rows)| <= |rows|
    ensures WithPrices(rows) == rows <==> forall i :: 0 <= i < |rows| ==> rows[i].HasPrices()
  {
    if rows != [] {
      var init, last := rows[..|rows| - 1], rows[|rows| - 1];
      WithPricesAll(init);
      assert rows == init + [last];
      assert forall i :: 0 <= i < |init| ==> init[i] == rows[i];
      if |WithPrices(rows)| == |rows| {
        assert WithPrices(rows) == WithPrices(init) + [last];
        assert WithPrices(rows)[..|init|] == WithPrices(init);
      }
    }
  }

  // ---- Served over whole runs ----

  /** Every completed candle has its four prices. */
  ghost predicate Priced(rows: seq<Candle>) {
    forall k :: CandleAt(rows, k).Some? ==> CandleAt(rows, k).value.HasPrices()
  }

  /** History rows that can be filed have their four prices. */
  ghost predicate PricedRows(rows: seq<Option<Candle>>) {
    forall i :: 0 <= i < |rows| && rows[i].Some? && rows[i].value.IsComplete() && MinuteKey(rows[i].value).Some? ==>
      rows[i].value.HasPrices()
  }

  lemma FilingPriced(b: Book)
    requires Good(b) && b.current.Some? && Priced(b.completed)
    ensures Priced(Append(b.completed, Completed(b.current.value)))
  {
    var c := Completed(b.current.value);
    OpenIsDated(b.current.value);
    FilingOne(b.completed, c);
    forall k ensures CandleAt(Append(b.completed, c), k) == FiledAt(b.completed, c, k) {}
    hide Append, StrictMinutes;
  }

  lemma {:induction false} MergePriced(m: map<int, Candle>, rows: seq<Option<Candle>>)
    requires PricedRows(rows) && forall k :: k in m ==> m[k].HasPrices()
    ensures forall k :: k in MergeRows(m, rows) ==> MergeRows(m, rows)[k].HasPrices()
  {
    if rows != [] {
      var init := rows[..|rows| - 1];
      assert forall i :: 0 <= i < |init| ==> init[i] == rows[i];
      MergePriced(m, init);
    }
  }

  lemma MergedPriced(b: Book, rows: seq<Option<Candle>>)
    requires Good(b) && Priced(b.completed) && PricedRows(rows)
    ensures Priced(Merge(b, rows).completed)
  {
    var existing := Existing(b.completed);
    ExistingFiles(b.completed);
    forall k | k in existing
      ensures existing[k].HasPrices() && MinuteKey(existing[k]).Some? && existing[k].IsComplete()
    {
      assert Lookup(existing, k) == CandleAt(b.completed, k);
    }
    MergeRowsKeeps(existing, rows);
    MergePriced(existing, rows);
    InOrderBook(MergeRows(existing, rows));
    forall k ensures CandleAt(Merge(b, rows).completed, k) == Lookup(MergeRows(existing, rows), k) {}
  }

  lemma StepPriced(b: Book, step: Step)
    requires Good(b) && Priced(b.completed) && (step.Merged? ==> PricedRows(step.rows))
    ensures Priced(Take(b, step).completed)
  {
    if b.current.Some? { FilingPriced(b); }
    if step.Merged? { MergedPriced(b, step.rows); }
    hide Append, Merge, Priced;
  }

  lemma PricedIsServed(b: Book)
    requires Good(b) && Priced(b.completed)
    ensures Served(b) == b.completed
  {
    ServedIsCompleted(b);
    forall i | 0 <= i < |b.completed| ensures b.completed[i].HasPrices() {
      AtStrict(b.completed, SortKey, i);
      assert CandleAt(b.completed, SortKey(b.completed[i])).Some?;
    }
  }

  /**
   * Under every interleaving of quotes, finalisations, seeds and merges of priced rows, what is served is
   * exactly the completed list.
   */
  lemma {:induction false} RunsServeCompleted(b: Book, steps: seq<Step>)
    requires Good(b) && Priced(b.completed)
    requires forall i :: 0 <= i < |steps| && steps[i].Merged? ==> PricedRows(steps[i].rows)
    ensures Priced(RunFrom(b, steps).completed)
    ensures Served(RunFrom(b, steps)) == RunFrom(b, steps).completed
  {
    hide Priced, Served;
    InterleavingsKeep(b, steps);
    if steps != [] {
      var init, last := steps[..|steps| - 1], steps[|steps| - 1];
      assert forall i :: 0 <= i < |init| ==> init[i] == steps[i];
      RunsServeCompleted(b, init);
      InterleavingsKeep(b, init);
      StepPriced(RunFrom(b, init), last);
    }
    PricedIsServed(RunFrom(b, steps));
  }

  // ---- The corner a merge opens ----

  /**
   * After a merge has dropped the open candle, a late quote opens its older minute again, and
   * closing that candle replaces the completed one of the same minute: the first quote is gone
   * although its minute is not.
   */
  lemma LateQuoteReplacesCandle(official: Candle)
    requires MinuteKey(official) == Some(2) && official.complete == Some(true) && official.source == Historical
    ensures var before := Tick(Tick(EmptyBook, Quote(10.0, 60, 1, 1)), Quote(11.0, 120, 2, 1));
            var merged := Merge(before, [Some(official)]);
            var after := Tick(Tick(merged, Quote(20.0, 65, 3, 1)), Quote(12.0, 180, 4, 1));
            var old_, new_ := CandleAt(before.completed, 1), CandleAt(after.completed, 1);
            old_.Some? && old_.value.open == Some(10.0) && new_.Some? && new_.value.low == Some(20.0)
  {
    var before := Tick(Tick(EmptyBook, Quote(10.0, 60, 1, 1)), Quote(11.0, 120, 2, 1));
    CornerFirst();
    CornerSecond(Tick(EmptyBook, Quote(10.0, 60, 1, 1)));
    CornerStart(before, Completed(NewCandle(Quote(10.0, 60, 1, 1), 0)));
    hide Tick, Merge, Good, Append, CandleAt;
    CornerMerge(before, official);
    CornerEnd(Merge(before, [Some(official)]));
  }

  lemma CornerFirst()
    ensures Tick(EmptyBook, Quote(10.0, 60, 1, 1)) ==
            Book([], Some(NewCandle(Quote(10.0, 60, 1, 1), 0)), Some(1), Some(TradeKey(60, 1, 1, 10.0)))
  {
    hide Append, NewCandle;
  }

  lemma CornerSecond(first: Book)
    requires first == Book([], Some(NewCandle(Quote(10.0, 60, 1, 1), 0)), Some(1), Some(TradeKey(60, 1, 1, 10.0)))
    ensures var b := Tick(first, Quote(11.0, 120, 2, 1));
            b.completed == Append([], Completed(NewCandle(Quote(10.0, 60, 1, 1), 0))) &&
            b.current == Some(NewCandle(Quote(11.0, 120, 2, 1), 1)) &&
            b.volume == Some(2) && b.lastTrade == Some(TradeKey(120, 2, 1, 11.0))
  {
    hide Append;
  }

  lemma CornerStart(b: Book, c: Candle)
    requires MinuteKey(c) == Some(1) && c.IsComplete() && b.completed == Append([], c)
    requires b.current == Some(NewCandle(Quote(11.0, 120, 2, 1), 1))
    ensures Good(b) && CurrentKey(b) == Some(2) && CandleAt(b.completed, 1) == Some(c)
  {
    CornerOpen();
    AppendAtEnd([], c);
    assert [] + [c] == [c];
    AtStrict([c], SortKey, 0);
    hide Append, StrictMinutes, NewCandle, Open, MinuteKey;
  }

  lemma CornerOpen()
    ensures var c := NewCandle(Quote(11.0, 120, 2, 1), 1); Open(c) && MinuteKey(c) == Some(2)
  {
  }

  /** The late quote and the one that closes its candle. */
  lemma CornerEnd(m: Book)
    requires m.current == None && m.volume == Some(2) && m.lastTrade == Some(TradeKey(120, 2, 1, 11.0))
    requires StrictMinutes(m.completed) && CandleAt(m.completed, 1).Some? &&
             CandleAt(m.completed, 1).value.source == Websocket
    ensures var at := CandleAt(Tick(Tick(m, Quote(20.0, 65, 3, 1)), Quote(12.0, 180, 4, 1)).completed, 1);
            at.Some? && at.value.low == Some(20.0)
  {
    var c := Completed(NewCandle(Quote(20.0, 65, 3, 1), 1));
    FilingOne(m.completed, c);
    assert CandleAt(Append(m.completed, c), 1) == FiledAt(m.completed, c, 1);
    hide Append, CandleAt, StrictMinutes;
  }

  lemma CornerMerge(b: Book, official: Candle)
    requires Good(b) && CurrentKey(b) == MinuteKey(official) == Some(2) && official.IsComplete()
    requires CandleAt(b.completed, 1).Some? && CandleAt(b.completed, 1).value.source == Websocket
    ensures var after := Merge(b, [Some(official)]);
            after.current == None && after.volume == b.volume && after.lastTrade == b.lastTrade &&
            StrictMinutes(after.completed) && CandleAt(after.completed, 1) == CandleAt(b.completed, 1)
  {
    var existing := Existing(b.completed);
    ExistingFiles(b.completed);
    forall k | k in existing ensures MinuteKey(existing[k]).Some? && existing[k].IsComplete() {
      assert Lookup(existing, k) == CandleAt(b.completed, k);
    }
    var rows := [Some(official)];
    var none: seq<Option<Candle>> := [];
    assert rows[..|rows| - 1] == none && MergeRows(existing, none) == existing;
    var merged := MergeRows(existing, rows);
    assert merged == MergeRow(existing, Some(official));
    MergeRowsKeeps(existing, rows);
    InOrderBook(merged);
    assert Lookup(existing, 1) == CandleAt(b.completed, 1);
    assert CandleAt(InOrder(merged), 1) == Lookup(merged, 1);
  }
}
