/** What a merge decides. */
module CandleMerge {
  // Which candle stands at a minute after a merge, in terms of the rows brought: official rows before all
  // others, later rows before earlier ones.

  import opened Basics
  import opened OrderedRows
  import opened CandleRules
  import opened CandleRuns

  /** The candle's epoch, or its timestamp if it has no epoch, lies within a minute; without a timestamp it has none. */
  predicate DatedAt(c: Candle, k: int) {
    var at := if c.epoch == Absent then c.timestamp else c.epoch;
    c.timestamp != Absent && at.Seconds? && 60 * k <= at.value < 60 * k + 60
  }

  predicate BringsAt(rows: seq<Option<Candle>>, i: int, k: int) {
    0 <= i < |rows| && rows[i].Some? && rows[i].value.complete != Some(false) && DatedAt(rows[i].value, k)
  }

  predicate OfficialAt(rows: seq<Option<Candle>>, i: int, k: int) {
    BringsAt(rows, i, k) && rows[i].value.source == Historical
  }

  ghost predicate LastBrought(rows: seq<Option<Candle>>, i: int, k: int) {
    BringsAt(rows, i, k) && forall j :: i < j < |rows| ==> !BringsAt(rows, j, k)
  }

  ghost predicate LastOfficial(rows: seq<Option<Candle>>, i: int, k: int) {
    OfficialAt(rows, i, k) && forall j :: i < j < |rows| ==> !OfficialAt(rows, j, k)
  }

  function Closed(c: Candle): Candle { c.(complete := Some(true)) }

  /**
   * What stands at a minute after a merge, given what stood there: the last official row, or else what was
   * official, or else the last row.
   */
  ghost predicate Decided(before: Option<Candle>, rows: seq<Option<Candle>>, k: int, after: Option<Candle>) {
    if exists i :: OfficialAt(rows, i, k) then
      forall i :: LastOfficial(rows, i, k) ==> after == Some(Closed(rows[i].value))
    else if exists i :: BringsAt(rows, i, k) then
      if before.Some? && before.value.source == Historical then after == Some(Closed(before.value))
      else forall i :: LastBrought(rows, i, k) ==> after == Some(Closed(rows[i].value))
    else after == before
  }

  lemma DatedIsKey(c: Candle, k: int)
    ensures DatedAt(c, k) <==> MinuteKey(c) == Some(k)
  {
  }

  /** What a book has for a minute is its one candle of that minute. */
  lemma CandleAtMinute(rows: seq<Candle>, k: int, c: Candle)
    requires StrictMinutes(rows)
    ensures CandleAt(rows, k) == Some(c) <==> c in rows && DatedAt(c, k)
  {
    DatedIsKey(c, k);
    if c in rows && DatedAt(c, k) {
      var i :| 0 <= i < |rows| && rows[i] == c;
      AtStrict(rows, SortKey, i);
    }
    if CandleAt(rows, k) == Some(c) {
      var i := Find(rows, SortKey, k);
      assert MinuteKey(rows[i]).Some?;
    }
  }

  /** The rows before the last. */
  lemma BeforeLast(rows: seq<Option<Candle>>, k: int)
    requires rows != []
    ensures var n := |rows| - 1;
            forall i :: i < n ==> (BringsAt(rows[..n], i, k) <==> BringsAt(rows, i, k)) &&
                                  (OfficialAt(rows[..n], i, k) <==> OfficialAt(rows, i, k))
  {
  }

  /** A last row of another minute decides nothing. */
  lemma OtherLast(before: Option<Candle>, rows: seq<Option<Candle>>, k: int, after: Option<Candle>)
    requires rows != [] && !BringsAt(rows, |rows| - 1, k) && Decided(before, rows[..|rows| - 1], k, after)
    ensures Decided(before, rows, k, after)
  {
    var n := |rows| - 1;
    BeforeLast(rows, k);
    assert forall i :: OfficialAt(rows, i, k) ==> OfficialAt(rows[..n], i, k);
    assert forall i :: BringsAt(rows, i, k) ==> BringsAt(rows[..n], i, k);
    assert forall i :: OfficialAt(rows[..n], i, k) ==> OfficialAt(rows, i, k);
    assert forall i :: BringsAt(rows[..n], i, k) ==> BringsAt(rows, i, k);
    hide OfficialAt, BringsAt;
    forall i | LastOfficial(rows, i, k) ensures LastOfficial(rows[..n], i, k) {}
    forall i | LastBrought(rows, i, k) ensures LastBrought(rows[..n], i, k) {}
  }

  /** A last row of the minute yields to what is official and is not official itself, or else stands. */
  lemma OwnLast(before: Option<Candle>, rows: seq<Option<Candle>>, k: int, between: Option<Candle>)
    requires rows != [] && BringsAt(rows, |rows| - 1, k) && Decided(before, rows[..|rows| - 1], k, between)
    ensures var c := rows[|rows| - 1].value;
            var kept := between.Some? && between.value.source == Historical && c.source != Historical;
            Decided(before, rows, k, Some(Closed(if kept then between.value else c)))
    decreases |rows|
  {
    var n := |rows| - 1;
    BeforeLast(rows, k);
    if OfficialAt(rows, n, k) {
      forall i | LastOfficial(rows, i, k) ensures i == n {}
    } else if exists i :: OfficialAt(rows, i, k) {
      YieldsToOfficial(before, rows, k, between);
    } else {
      assert forall i :: !OfficialAt(rows[..n], i, k);
      forall i | LastBrought(rows, i, k) ensures i == n {}
      assert BringsAt(rows, n, k);
      NoneOfficial(before, rows[..n], k, between);
    }
  }

  lemma YieldsToOfficial(before: Option<Candle>, rows: seq<Option<Candle>>, k: int, between: Option<Candle>)
    requires rows != [] && !OfficialAt(rows, |rows| - 1, k) && Decided(before, rows[..|rows| - 1], k, between)
    requires exists i :: OfficialAt(rows, i, k)
    ensures between.Some? && between.value.source == Historical
    ensures Decided(before, rows, k, Some(Closed(between.value)))
  {
    var n := |rows| - 1;
    BeforeLast(rows, k);
    var i := LastOne(rows, k);
    assert OfficialAt(rows[..n], i, k);
    forall j | LastOfficial(rows, j, k) ensures j == i { assert OfficialAt(rows, j, k) && OfficialAt(rows, i, k); }
    assert LastOfficial(rows[..n], i, k);
  }

  lemma {:induction false} LastOne(rows: seq<Option<Candle>>, k: int) returns (i: int)
    requires exists j :: OfficialAt(rows, j, k)
    ensures LastOfficial(rows, i, k)
  {
    var n := |rows| - 1;
    if OfficialAt(rows, n, k) {
      i := n;
    } else {
      BeforeLast(rows, k);
      var j :| OfficialAt(rows, j, k);
      assert OfficialAt(rows[..n], j, k);
      i := LastOne(rows[..n], k);
    }
  }

  /** Without an official row what stands is official exactly if it was before. */
  lemma NoneOfficial(before: Option<Candle>, rows: seq<Option<Candle>>, k: int, after: Option<Candle>)
    requires forall i :: !OfficialAt(rows, i, k)
    requires Decided(before, rows, k, after)
    ensures before.Some? && before.value.source == Historical ==>
      after.Some? && after.value.source == Historical && Closed(after.value) == Closed(before.value)
    ensures !(before.Some? && before.value.source == Historical) ==>
      !(after.Some? && after.value.source == Historical)
  {
    if exists i :: BringsAt(rows, i, k) {
      var i := LastOfAll(rows, k);
      assert !OfficialAt(rows, i, k);
    }
  }

  lemma {:induction false} LastOfAll(rows: seq<Option<Candle>>, k: int) returns (i: int)
    requires exists j :: BringsAt(rows, j, k)
    ensures LastBrought(rows, i, k)
  {
    var n := |rows| - 1;
    if BringsAt(rows, n, k) {
      i := n;
    } else {
      BeforeLast(rows, k);
      var j :| BringsAt(rows, j, k);
      assert BringsAt(rows[..n], j, k);
      i := LastOfAll(rows[..n], k);
    }
  }

  lemma {:induction false} RowsDecide(m: map<int, Candle>, rows: seq<Option<Candle>>, k: int)
    ensures Decided(Lookup(m, k), rows, k, Lookup(MergeRows(m, rows), k))
  {
    if rows != [] {
      var n := |rows| - 1;
      var before := MergeRows(m, rows[..n]);
      RowsDecide(m, rows[..n], k);
      OneRow(before, rows[n], k);
      hide MergeRow, Decided;
      if BringsAt(rows, n, k) {
        OwnLast(Lookup(m, k), rows, k, Lookup(before, k));
      } else {
        OtherLast(Lookup(m, k), rows, k, Lookup(before, k));
      }
    }
  }

  lemma OneRow(m: map<int, Candle>, row: Option<Candle>, k: int)
    ensures Lookup(MergeRow(m, row), k) ==
            if row.None? || row.value.complete == Some(false) || !DatedAt(row.value, k) then Lookup(m, k)
            else if k in m && m[k].source == Historical && row.value.source != Historical then Some(Closed(m[k]))
            else Some(Closed(row.value))
  {
    if row.Some? {
      DatedIsKey(row.value, k);
      if MinuteKey(row.value).Some? { DatedIsKey(row.value, MinuteKey(row.value).value); }
    }
  }

  /** For every book, rows and minute: after a merge stands what the rows brought for it and what stood there decide. */
  lemma MergeDecides(b: Book, rows: seq<Option<Candle>>, k: int)
    requires Good(b)
    ensures Decided(CandleAt(b.completed, k), rows, k, CandleAt(Merge(b, rows).completed, k))
  {
    var existing := Existing(b.completed);
    ExistingFiles(b.completed);
    forall j | j in existing ensures MinuteKey(existing[j]).Some? && existing[j].IsComplete() {
      assert Lookup(existing, j) == CandleAt(b.completed, j);
    }
    MergeRowsKeeps(existing, rows);
    InOrderBook(MergeRows(existing, rows));
    hide Decided, MergeRows, CandleAt;
    RowsDecide(existing, rows, k);
    assert Lookup(existing, k) == CandleAt(b.completed, k);
  }

  // ---- Over runs ----

  lemma OfficialStays(b: Book, step: Step, k: int, c: Candle)
    requires Good(b) && CandleAt(b.completed, k) == Some(c) && c.source == Historical && c.complete == Some(true)
    requires step.Merged? ==> forall i :: !OfficialAt(step.rows, i, k)
    ensures CandleAt(Take(b, step).completed, k) == Some(c)
  {
    hide CandleAt, Good, Tick, Merge;
    match step
    case Quoted(q) => QuoteReplacesExactlyWhen(b, q, k);
    case Merged(rows) =>
      MergeDecides(b, rows, k);
      hide OfficialAt, BringsAt;
      if exists i :: BringsAt(rows, i, k) { assert Closed(c) == c; }
    case Finalized => FinalizeReplacesExactlyWhen(b, k);
    case Seeded(volume) =>
  }

  /**
   * Over whole runs a minute shows the last official row of the last merge that brought it one, whatever
   * quotes, finalisations and other merges follow.
   */
  lemma {:induction false} LatestOfficialStands(b: Book, steps: seq<Step>, i: nat, j: nat, k: int)
    requires Good(b) && i < |steps| && steps[i].Merged? && LastOfficial(steps[i].rows, j, k)
    requires forall n, r :: i < n < |steps| && steps[n].Merged? ==> !OfficialAt(steps[n].rows, r, k)
    ensures CandleAt(RunFrom(b, steps).completed, k) == Some(Closed(steps[i].rows[j].value))
    decreases |steps|
  {
    var n := |steps| - 1;
    var init := steps[..n];
    InterleavingsKeep(b, init);
    hide Good, CandleAt, Take;
    if i == n {
      MergeDecides(RunFrom(b, init), steps[n].rows, k);
      MergedStep(RunFrom(b, init), steps[n]);
    } else {
      LatestOfficialStands(b, init, i, j, k);
      OfficialStays(RunFrom(b, init), steps[n], k, Closed(steps[i].rows[j].value));
    }
  }

  lemma MergedStep(b: Book, step: Step)
    requires step.Merged?
    ensures Take(b, step) == Merge(b, step.rows)
  {
  }

  // ---- Closing an open candle ----

  /** Closing the open candle files it at its minute unless that is official, and changes no other minute. */
  lemma ClosingDecides(b: Book, k: int)
    requires Good(b) && b.current.Some?
    ensures var before, after := CandleAt(b.completed, k), CandleAt(Finalize(b).completed, k);
            if !DatedAt(b.current.value, k) || (before.Some? && before.value.source == Historical) then after == before
            else after == Some(Closed(b.current.value))
  {
    var c := Completed(b.current.value);
    OpenIsDated(b.current.value);
    DatedIsKey(c, k);
    FilingOne(b.completed, c);
    assert CandleAt(Append(b.completed, c), k) == FiledAt(b.completed, c, k);
    hide Append, StrictMinutes, CandleAt;
  }

  // ---- The served list ----

  /** A row that can be served at a minute: its timestamp stands in for a missing or null epoch. */
  predicate ServableAt(rows: seq<Candle>, i: int, k: int) {
    0 <= i < |rows| &&
    var c := rows[i];
    var at := if c.epoch == Absent || c.epoch == Null then c.timestamp else c.epoch;
    c.complete != Some(false) && c.open.Some? && c.high.Some? && c.low.Some? && c.close.Some? &&
    at.Seconds? && 60 * k <= at.value < 60 * k + 60
  }

  /** The row that is served among the first `n`: the last official one, or the last one if none is official. */
  ghost predicate Serves(rows: seq<Candle>, n: nat, k: int, i: int) {
    i < n && ServableAt(rows, i, k) &&
    forall j :: 0 <= j < n && j != i && ServableAt(rows, j, k) ==>
      if rows[i].source == Historical then j < i || rows[j].source != Historical
      else j < i && rows[j].source != Historical
  }

  /** At each minute the de-duplicated rows have the last official row that can be served, or the last such row. */
  lemma {:induction false} DedupeDecides(rows: seq<Candle>, k: int) returns (i: int)
    ensures if k in DedupeRows(rows)
            then Serves(rows, |rows|, k, i) && DedupeRows(rows)[k] == rows[i]
            else forall j :: !ServableAt(rows, j, k)
  {
    i := -1;
    if rows != [] {
      var n := |rows| - 1;
      i := DedupeDecides(rows[..n], k);
      assert forall j :: j < n ==> (ServableAt(rows[..n], j, k) <==> ServableAt(rows, j, k));
      if ServableAt(rows, n, k) {
        if k !in DedupeRows(rows[..n]) || rows[i].source != Historical || rows[n].source == Historical { i := n; }
      }
    }
  }

  // ---- What else a step changes ----

  /**
   * A merge drops the open candle exactly if a completed one now stands at its minute, closing drops it in any
   * case, a seed sets the volume that the next quote is held against; nothing else of a book changes but its
   * completed candles.
   */
  lemma RestOfTheBook(b: Book, rows: seq<Option<Candle>>, volume: int)
    requires Good(b)
    ensures var merged := Merge(b, rows);
            merged.volume == b.volume && merged.lastTrade == b.lastTrade &&
            (b.current.None? ==> merged.current == None) &&
            forall k :: b.current.Some? && DatedAt(b.current.value, k) ==>
              merged.current == if CandleAt(merged.completed, k).Some? then None else b.current
    ensures var closed := Finalize(b);
            closed.current == None && closed.volume == b.volume && closed.lastTrade == b.lastTrade &&
            (b.current.None? ==> closed.completed == b.completed)
    ensures var seeded := Seed(b, volume);
            seeded.completed == b.completed && seeded.current == b.current && seeded.lastTrade == b.lastTrade &&
            (volume >= 0 ==> seeded.volume == Some(volume)) && (volume < 0 ==> seeded.volume == Some(0))
  {
    MergedMinutes(b, rows);
    if b.current.Some? {
      forall k ensures DatedAt(b.current.value, k) <==> MinuteKey(b.current.value) == Some(k) {
        DatedIsKey(b.current.value, k);
      }
    }
    hide Append, MergeRows, Existing, CandleAt, MinuteKey;
  }

  lemma MergedMinutes(b: Book, rows: seq<Option<Candle>>)
    requires Good(b)
    ensures forall k :: CandleAt(Merge(b, rows).completed, k) == Lookup(MergeRows(Existing(b.completed), rows), k)
  {
    var existing := Existing(b.completed);
    ExistingFiles(b.completed);
    forall j | j in existing ensures MinuteKey(existing[j]).Some? && existing[j].IsComplete() {
      assert Lookup(existing, j) == CandleAt(b.completed, j);
    }
    MergeRowsKeeps(existing, rows);
    InOrderBook(MergeRows(existing, rows));
  }

  /** A quote of no use: unreadable, without time or price, of negative volume, or from before the open candle. */
  predicate Useless(b: Book, q: Quote) {
    q.Unreadable? || q.time <= 0 || q.price <= 0.0 || q.volume < 0 ||
    (b.current.Some? && b.current.value.epoch.Seconds? && q.time < b.current.value.epoch.value)
  }

  /**
   * A useless quote changes nothing. Any other sets the cumulative volume and the latest trade, and unless it
   * repeats that trade the open candle is then one of the minute its time lies in, closing at its price.
   */
  lemma QuoteTaken(b: Book, q: Quote)
    requires Good(b)
    ensures Useless(b, q) ==> Tick(b, q) == b
    ensures !Useless(b, q) ==>
      var after, trade := Tick(b, q), TradeKey(q.time, q.volume, q.quantity, q.price);
      after.volume == Some(q.volume) && after.lastTrade == Some(trade) &&
      (b.lastTrade != Some(trade) ==> after.current.Some? && OpenAt(after.current.value, q.time, q.price))
  {
    hide Append, StrictMinutes;
  }

  predicate OpenAt(c: Candle, time: int, price: real) {
    c.epoch.Seconds? && c.epoch.value % 60 == 0 && c.epoch.value <= time < c.epoch.value + 60 &&
    c.close == Some(price) && c.complete == Some(false)
  }
}
