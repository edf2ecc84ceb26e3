/** The equity state object, one locked section after another. */
module CandleState {
  import opened Basics
  import opened OrderedRows
  import opened CandleRules
  import opened CandleRuns

  /** `[m[k] for k in sorted(m)]`. */
  method ListInOrder(m: map<int, Candle>) returns (rows: seq<Candle>)
    ensures rows == InOrder(m)
  {
    var keys := SortKeys(m.Keys);
    rows := [];
    for i := 0 to |keys|
      invariant InOrder(m) == rows + ValuesOf(m, keys[i..])
    {
      assert keys[i..][1..] == keys[i + 1..];
      SortedKeysExact(m.Keys);
      assert keys[i] in keys;
      rows := rows + [m[keys[i]]];
    }
  }

  /** The public list: one candle a minute, official before websocket, in minute order. */
  method DedupeCandles(rows: seq<Candle>) returns (candles: seq<Candle>)
    ensures candles == InOrder(DedupeRows(rows))
  {
    var byMinute: map<int, Candle> := map[];
    for i := 0 to |rows|
      invariant byMinute == DedupeRows(rows[..i])
    {
      var row := rows[i];
      assert rows[..i + 1][..i] == rows[..i];
      if row.IsComplete() && row.HasPrices() && PayloadKey(row).Some? {
        var key := PayloadKey(row).value;
        byMinute := byMinute[key := if key in byMinute then Prefer(byMinute[key], row) else row];
      }
    }
    assert rows[..|rows|] == rows;
    candles := ListInOrder(byMinute);
  }

  /** The merged dictionary of a book's completed rows and some history rows. */
  method MergedDictionary(rows: seq<Candle>, candles: seq<Option<Candle>>) returns (existing: map<int, Candle>)
    ensures existing == MergeRows(Existing(rows), candles)
  {
    existing := map[];
    for i := 0 to |rows|
      invariant existing == Existing(rows[..i])
    {
      assert rows[..i + 1][..i] == rows[..i];
      if rows[i].IsComplete() && MinuteKey(rows[i]).Some? {
        existing := existing[MinuteKey(rows[i]).value := rows[i]];
      }
    }
    assert rows[..|rows|] == rows;
    for i := 0 to |candles|
      invariant existing == MergeRows(Existing(rows), candles[..i])
    {
      assert candles[..i + 1][..i] == candles[..i];
      if candles[i].Some? && candles[i].value.IsComplete() && MinuteKey(candles[i].value).Some? {
        var candle, key := candles[i].value, MinuteKey(candles[i].value).value;
        existing := existing[key := Completed(if key in existing then Prefer(existing[key], candle) else candle)];
      }
    }
    assert candles[..|candles|] == candles;
  }

  lemma GoodIsKeyed(b: Book)
    requires Good(b)
    ensures Keyed(b.completed)
  {
  }

  class PsygridState {
    var instruments: set<string>
    var live: bool
    var liveCandles: map<string, seq<Candle>>
    var current1m: map<string, Option<Candle>>
    var prevCumulativeVolume: map<string, int>
    var lastTradeKey: map<string, Trade>

    constructor ()
      ensures Valid() && !live && instruments == {}
      ensures forall id :: BookOf(id) == EmptyBook
    {
      instruments, live := {}, false;
      liveCandles, current1m, prevCumulativeVolume, lastTradeKey := map[], map[], map[], map[];
    }

    ghost function BookOf(id: string): Book
      reads this
    {
      Book(if id in liveCandles then liveCandles[id] else [],
           if id in current1m then current1m[id] else None,
           Lookup(prevCumulativeVolume, id), Lookup(lastTradeKey, id))
    }

    ghost predicate Valid()
      reads this
    {
      forall id :: Good(BookOf(id))
    }

    /** A new session: every book starts empty. */
    method Begin(ids: set<string>)
      modifies this
      ensures Valid() && live && instruments == ids
      ensures forall id :: BookOf(id) == EmptyBook
    {
      liveCandles, prevCumulativeVolume, lastTradeKey := map[], map[], map[];
      instruments, live := ids, true;
      current1m := map id | id in ids :: None;
    }

    method Reset()
      modifies this
      ensures Valid() && !live && instruments == {}
      ensures forall id :: BookOf(id) == EmptyBook
    {
      liveCandles, current1m, prevCumulativeVolume, lastTradeKey := map[], map[], map[], map[];
      instruments, live := {}, false;
    }

    method SeedCumulativeVolume(id: string, volume: int)
      requires Valid()
      modifies this
      ensures Valid() && instruments == old(instruments) && live == old(live)
      ensures BookOf(id) == if id in instruments then Seed(old(BookOf(id)), volume) else old(BookOf(id))
      ensures forall other :: other != id ==> BookOf(other) == old(BookOf(other))
    {
      ghost var before := BookOf(id);
      assert Good(before);
      if id in instruments {
        prevCumulativeVolume := prevCumulativeVolume[id := MaxInt(0, volume)];
      }
      assert forall other :: other != id ==> BookOf(other) == old(BookOf(other));
    }

    /** File one completed candle of a security, replacing its minute in place or appending, then sort. */
    method AppendCompleted(id: string, candle: Candle)
      requires Keyed(BookOf(id).completed)
      modifies this`liveCandles
      ensures BookOf(id) == old(BookOf(id)).(completed := Append(old(BookOf(id)).completed, candle))
      ensures forall other :: other != id ==> BookOf(other) == old(BookOf(other))
    {
      var key := MinuteKey(candle);
      if key.None? { return; }
      var rows := if id in liveCandles then liveCandles[id] else [];
      var index := 0;
      while index < |rows| && MinuteKey(rows[index]) != key
        invariant index <= |rows|
        invariant forall j :: 0 <= j < index ==> MinuteKey(rows[j]) != key
      {
        index := index + 1;
      }
      assert index == Find(rows, SortKey, SortKey(candle)) by {
        assert forall j :: 0 <= j < index ==> SortKey(rows[j]) != SortKey(candle);
      }
      rows := if index < |rows| then rows[index := Prefer(rows[index], candle)] else rows + [candle];
      liveCandles := liveCandles[id := SortRows(rows, SortKey)];
    }

    method UpdateQuote(id: string, quote: Quote)
      requires Valid()
      modifies this
      ensures Valid() && instruments == old(instruments) && live == old(live)
      ensures BookOf(id) == if id in instruments && live then Tick(old(BookOf(id)), quote) else old(BookOf(id))
      ensures forall other :: other != id ==> BookOf(other) == old(BookOf(other))
    {
      ghost var before := BookOf(id);
      assert Good(before);
      TickKeeps(before, quote);
      if id in instruments && live {
        Count(id, quote);
      }
      forall other ensures Good(BookOf(other)) { assert Good(old(BookOf(other))); }
    }

    /** One packet against one book: roll over if its minute is later, then fold it in. */
    method Count(id: string, quote: Quote)
      requires Good(BookOf(id))
      modifies this
      ensures instruments == old(instruments) && live == old(live)
      ensures BookOf(id) == Tick(old(BookOf(id)), quote)
      ensures forall other :: other != id ==> BookOf(other) == old(BookOf(other))
    {
      hide Append, NewCandle, Extend, Completed, Good;
      if !quote.Valid() { return; }
      var minute := quote.Minute();
      var current := if id in current1m then current1m[id] else None;
      if current.Some? {
        if minute < EpochOf(current.value) { return; }
        if minute > EpochOf(current.value) {
          assert Keyed(BookOf(id).completed) by { GoodIsKeyed(BookOf(id)); }
          AppendCompleted(id, Completed(current.value));
          current1m := current1m[id := None];
        }
      }
      var previous := if id in prevCumulativeVolume then prevCumulativeVolume[id] else quote.volume;
      var delta := MaxInt(0, quote.volume - previous);
      prevCumulativeVolume := prevCumulativeVolume[id := quote.volume];
      if Lookup(lastTradeKey, id) == Some(quote.Trade()) { return; }
      lastTradeKey := lastTradeKey[id := quote.Trade()];
      var open := if id in current1m then current1m[id] else None;
      var candle := if open.None? then NewCandle(quote, delta) else Extend(open.value, quote, delta);
      current1m := current1m[id := Some(candle)];
    }

    /** Merge official candles of completed minutes into a security's book. */
    method MergeTodayHistory(id: string, candles: seq<Option<Candle>>)
      requires Valid()
      modifies this
      ensures Valid() && instruments == old(instruments) && live == old(live)
      ensures BookOf(id) == Merge(old(BookOf(id)), candles)
      ensures forall other :: other != id ==> BookOf(other) == old(BookOf(other))
    {
      ghost var before := BookOf(id);
      assert Good(before);
      MergeKeeps(before, candles);
      var existing := MergedDictionary(if id in liveCandles then liveCandles[id] else [], candles);
      var merged := ListInOrder(existing);
      liveCandles := liveCandles[id := merged];
      var current := if id in current1m then current1m[id] else None;
      if current.Some? && MinuteKey(current.value).Some? && MinuteKey(current.value).value in existing {
        current1m := current1m[id := None];
      }
      assert BookOf(id) == Merge(before, candles);
      forall other | other != id ensures BookOf(other) == old(BookOf(other)) && Good(BookOf(other)) {
        assert Good(old(BookOf(other)));
      }
    }

    /** Close one security's open candle. */
    method CloseOne(id: string)
      requires Good(BookOf(id)) && id in current1m
      modifies this`liveCandles, this`current1m
      ensures BookOf(id) == Finalize(old(BookOf(id))) && current1m.Keys == old(current1m).Keys
      ensures forall other :: other != id ==> BookOf(other) == old(BookOf(other))
    {
      var candle := current1m[id];
      if candle.Some? {
        AppendCompleted(id, Completed(candle.value));
        current1m := current1m[id := None];
      }
    }

    /** Close every open candle. */
    method FinalizeCurrent()
      requires Valid()
      modifies this
      ensures Valid() && instruments == old(instruments) && live == old(live)
      ensures forall id :: BookOf(id) == Finalize(old(BookOf(id)))
    {
      var left := current1m.Keys;
      while left != {}
        invariant left <= current1m.Keys
        invariant instruments == old(instruments) && live == old(live)
        invariant forall id :: BookOf(id) == if id in left then old(BookOf(id)) else Finalize(old(BookOf(id)))
        decreases |left|
      {
        var id :| id in left;
        assert Good(old(BookOf(id)));
        CloseOne(id);
        left := left - {id};
      }
      forall id ensures Good(BookOf(id)) {
        assert Good(old(BookOf(id)));
        TakeKeeps(old(BookOf(id)), Finalized);
      }
    }

    /** The candles served for a security: exactly its completed, priced candles. */
    method StockCandles(id: string) returns (candles: seq<Candle>)
      requires Valid()
      ensures candles == WithPrices(BookOf(id).completed)
    {
      assert Good(BookOf(id));
      var rows := if id in liveCandles then liveCandles[id] else [];
      if id in current1m && current1m[id].Some? {
        rows := rows + [current1m[id].value];
      }
      assert rows == BookOf(id).completed + (if BookOf(id).current.Some? then [BookOf(id).current.value] else []);
      candles := DedupeCandles(rows);
      ServedIsCompleted(BookOf(id));
    }
  }
}
