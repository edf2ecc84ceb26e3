/**
 * One-minute candles: their keys, which of two of one minute is preferred, and each operation on one
 * security's book.
 */
module CandleRules {
  import opened Basics
  import opened OrderedRows

  /** A value under a time key of a candle: missing, null, not a number, or a number of seconds. */
  datatype Stamp = Absent | Null | Bad | Seconds(value: int)

  datatype Source = Historical | Websocket | Unlabelled

  datatype Candle = Candle(
    timestamp: Stamp, epoch: Stamp,
    open: Option<real>, high: Option<real>, low: Option<real>, close: Option<real>,
    volume: int, source: Source, complete: Option<bool>)
  {
    predicate IsComplete() { complete != Some(false) }
    predicate HasPrices() { open.Some? && high.Some? && low.Some? && close.Some? }
  }

  function Minutes(stamp: Stamp): Option<int> {
    if stamp.Seconds? then Some(stamp.value / 60) else None
  }

  /** The state's minute key: `epoch` if present, but a missing `timestamp` is an error either way. */
  function MinuteKey(c: Candle): Option<int> {
    if c.timestamp == Absent then None
    else if c.epoch == Absent then Minutes(c.timestamp) else Minutes(c.epoch)
  }

  /** The payload builder's minute key: `timestamp` stands in for a missing or null `epoch`. */
  function PayloadKey(c: Candle): Option<int> {
    if c.epoch == Absent || c.epoch == Null then Minutes(c.timestamp) else Minutes(c.epoch)
  }

  /** The key rows are sorted by: the minute, or 0 without one. */
  function SortKey(c: Candle): int { if MinuteKey(c).Some? then MinuteKey(c).value else 0 }

  /** The official candle of a minute is only ever replaced by another official one. */
  function Prefer(existing: Candle, incoming: Candle): Candle {
    if existing.source == Historical && incoming.source != Historical then existing else incoming
  }

  function Completed(c: Candle): Candle { c.(complete := Some(true)) }

  // ---- One security's book ----

  datatype Trade = TradeKey(epoch: int, volume: int, quantity: int, price: real)

  datatype Book = Book(completed: seq<Candle>, current: Option<Candle>, volume: Option<int>, lastTrade: Option<Trade>)

  const EmptyBook := Book([], None, None, None)

  /** A quote packet, or one whose fields cannot be read as numbers. */
  datatype Quote = Unreadable | Quote(price: real, time: int, volume: int, quantity: int) {
    predicate Valid() { Quote? && time > 0 && price > 0.0 && volume >= 0 }
    function Minute(): int requires Quote? { time - time % 60 }
    function Trade(): Trade requires Quote? { TradeKey(time, volume, quantity, price) }
  }

  /** Filing a completed candle: in place if its minute is there already, otherwise appended; then sorted. */
  function Append(rows: seq<Candle>, candle: Candle): seq<Candle> {
    if MinuteKey(candle).None? then rows
    else
      var i := Find(rows, SortKey, SortKey(candle));
      SortRows(if i < |rows| then rows[i := Prefer(rows[i], candle)] else rows + [candle], SortKey)
  }

  function NewCandle(q: Quote, volume: int): Candle
    requires q.Quote?
  {
    Candle(Seconds(q.Minute()), Seconds(q.Minute()), Some(q.price), Some(q.price), Some(q.price), Some(q.price),
           volume, Websocket, Some(false))
  }

  function Extend(c: Candle, q: Quote, volume: int): Candle
    requires q.Quote?
  {
    c.(high := Some(MaxReal(if c.high.Some? then c.high.value else q.price, q.price)),
       low := Some(MinReal(if c.low.Some? then c.low.value else q.price, q.price)),
       close := Some(q.price), volume := c.volume + volume)
  }

  function EpochOf(c: Candle): int { if c.epoch.Seconds? then c.epoch.value else 0 }

  /** `update_quote` for a subscribed security of a live session. */
  function Tick(b: Book, q: Quote): Book {
    if !q.Valid() then b
    else if b.current.Some? && q.Minute() < EpochOf(b.current.value) then b
    else
      var closing := b.current.Some? && q.Minute() > EpochOf(b.current.value);
      var completed := if closing then Append(b.completed, Completed(b.current.value)) else b.completed;
      var current := if closing then None else b.current;
      var previous := if b.volume.Some? then b.volume.value else q.volume;
      var delta := MaxInt(0, q.volume - previous);
      if b.lastTrade == Some(q.Trade()) then Book(completed, current, Some(q.volume), b.lastTrade)
      else
        Book(completed, Some(if current.None? then NewCandle(q, delta) else Extend(current.value, q, delta)),
             Some(q.volume), Some(q.Trade()))
  }

  /** The dictionary of completed candles that a history merge starts from. */
  function Existing(rows: seq<Candle>): map<int, Candle> {
    if rows == [] then map[]
    else
      var before, c := Existing(rows[..|rows| - 1]), rows[|rows| - 1];
      if c.IsComplete() && MinuteKey(c).Some? then before[SortKey(c) := c] else before
  }

  /** One history row merged into a dictionary; an entry that is not a candle is `None`. */
  function MergeRow(m: map<int, Candle>, row: Option<Candle>): map<int, Candle> {
    match row
    case None => m
    case Some(c) =>
      if !c.IsComplete() || MinuteKey(c).None? then m
      else m[SortKey(c) := Completed(if SortKey(c) in m then Prefer(m[SortKey(c)], c) else c)]
  }

  function MergeRows(m: map<int, Candle>, rows: seq<Option<Candle>>): map<int, Candle> {
    if rows == [] then m else MergeRow(MergeRows(m, rows[..|rows| - 1]), rows[|rows| - 1])
  }

  function CurrentKey(b: Book): Option<int> { if b.current.Some? then MinuteKey(b.current.value) else None }

  /** `merge_today_1m_history`: an open candle whose minute is now filed is dropped. */
  ghost function Merge(b: Book, rows: seq<Option<Candle>>): Book {
    var merged := MergeRows(Existing(b.completed), rows);
    var filled := CurrentKey(b).Some? && CurrentKey(b).value in merged;
    Book(InOrder(merged), if filled then None else b.current, b.volume, b.lastTrade)
  }

  /** `finalize_current`. */
  function Finalize(b: Book): Book {
    if b.current.None? then b
    else Book(Append(b.completed, Completed(b.current.value)), None, b.volume, b.lastTrade)
  }

  /** `seed_cumulative_volume`. */
  function Seed(b: Book, volume: int): Book { b.(volume := Some(MaxInt(0, volume))) }

  // ---- What stays true of a book ----

  ghost predicate Keyed(rows: seq<Candle>) {
    forall i :: 0 <= i < |rows| ==> MinuteKey(rows[i]).Some? && rows[i].complete != Some(false)
  }

  /** Complete candles in strictly rising minutes: in order, and never two for one minute. */
  ghost predicate StrictMinutes(rows: seq<Candle>) { Keyed(rows) && Strict(rows, SortKey) }

  ghost function CandleAt(rows: seq<Candle>, minute: int): Option<Candle> { At(rows, SortKey, minute) }

  /** An open candle sits on its minute, is not complete and carries prices. */
  ghost predicate Open(c: Candle) {
    c.epoch.Seconds? && c.timestamp == c.epoch && c.epoch.value % 60 == 0 &&
    c.complete == Some(false) && c.source == Websocket && c.HasPrices()
  }

  ghost predicate Good(b: Book) {
    StrictMinutes(b.completed) && (b.current.Some? ==> Open(b.current.value))
  }

  /** What stands at a minute once a candle has been filed. */
  ghost function FiledAt(rows: seq<Candle>, c: Candle, k: int): Option<Candle> {
    if k != SortKey(c) then CandleAt(rows, k)
    else if CandleAt(rows, k).Some? then Some(Prefer(CandleAt(rows, k).value, c)) else Some(c)
  }

  /** Filing keeps the order strict and changes one minute, by the rule of precedence. */
  lemma FilingOne(rows: seq<Candle>, c: Candle)
    requires StrictMinutes(rows) && MinuteKey(c).Some? && c.IsComplete()
    ensures StrictMinutes(Append(rows, c))
    ensures forall k :: CandleAt(Append(rows, c), k) == FiledAt(rows, c, k)
  {
    if Find(rows, SortKey, SortKey(c)) < |rows| {
      AppendReplaces(rows, c);
    } else {
      AppendInserts(rows, c);
    }
  }

  lemma AppendReplaces(rows: seq<Candle>, c: Candle)
    requires StrictMinutes(rows) && MinuteKey(c).Some? && c.IsComplete()
    requires Find(rows, SortKey, SortKey(c)) < |rows|
    ensures StrictMinutes(Append(rows, c))
    ensures forall k :: CandleAt(Append(rows, c), k) == FiledAt(rows, c, k)
  {
    var i := Find(rows, SortKey, SortKey(c));
    var kept := Prefer(rows[i], c);
    PreferKeyed(rows, i, c);
    ReplaceFiles(rows, SortKey, i, kept);
    SortOfSorted(rows[i := kept], SortKey);
    assert CandleAt(rows, SortKey(c)) == Some(rows[i]);
    hide Prefer, SortKey, MinuteKey, Strict, Keyed, SortRows;
  }

  lemma PreferKeyed(rows: seq<Candle>, i: nat, c: Candle)
    requires Keyed(rows) && i < |rows| && MinuteKey(c).Some? && c.IsComplete() && SortKey(rows[i]) == SortKey(c)
    ensures SortKey(Prefer(rows[i], c)) == SortKey(c) && Keyed(rows[i := Prefer(rows[i], c)])
  {
  }

  lemma AppendInserts(rows: seq<Candle>, c: Candle)
    requires StrictMinutes(rows) && MinuteKey(c).Some? && c.IsComplete()
    requires Find(rows, SortKey, SortKey(c)) == |rows|
    ensures StrictMinutes(Append(rows, c))
    ensures forall k :: CandleAt(Append(rows, c), k) == FiledAt(rows, c, k)
  {
    SortOfSorted(rows, SortKey);
    assert (rows + [c])[..|rows|] == rows;
    assert Append(rows, c) == InsertRow(rows, SortKey, c);
    InsertFiles(rows, SortKey, c);
    KeyedInsert(rows, c);
  }

  lemma {:induction false} KeyedInsert(rows: seq<Candle>, c: Candle)
    requires Keyed(rows) && MinuteKey(c).Some? && c.IsComplete()
    ensures Keyed(InsertRow(rows, SortKey, c))
  {
    if rows != [] { KeyedInsert(rows[..|rows| - 1], c); }
  }

  /** A candle of a later minute than every filed one simply goes to the end. */
  lemma AppendAtEnd(rows: seq<Candle>, c: Candle)
    requires StrictMinutes(rows) && MinuteKey(c).Some? && c.IsComplete()
    requires rows != [] ==> SortKey(rows[|rows| - 1]) < SortKey(c)
    ensures Append(rows, c) == rows + [c] && StrictMinutes(rows + [c])
  {
    LastIsGreatestOrNone(rows, SortKey(c));
    OrderedRows.AppendFiles(rows, SortKey, c);
    SortOfSorted(rows + [c], SortKey);
  }

  lemma LastIsGreatestOrNone(rows: seq<Candle>, k: int)
    requires Strict(rows, SortKey) && (rows != [] ==> SortKey(rows[|rows| - 1]) < k)
    ensures Find(rows, SortKey, k) == |rows|
  {
    if rows != [] { LastIsGreatest(rows, SortKey, k); }
  }

  lemma {:induction false} ExistingFiles(rows: seq<Candle>)
    requires StrictMinutes(rows)
    ensures Filed(Existing(rows), SortKey)
    ensures forall k :: Lookup(Existing(rows), k) == CandleAt(rows, k)
  {
    if rows != [] {
      var init, last := rows[..|rows| - 1], rows[|rows| - 1];
      ExistingFiles(init);
      forall k ensures Lookup(Existing(rows), k) == CandleAt(rows, k) {
        AtPrefix(rows, SortKey, k);
        AtStrict(rows, SortKey, |rows| - 1);
        assert Existing(rows) == Existing(init)[SortKey(last) := last];
        assert Lookup(Existing(init), k) == CandleAt(init, k);
      }
    }
  }

  /** Candles of a dictionary that can stand in a book. */
  ghost predicate Bookable(m: map<int, Candle>) {
    Filed(m, SortKey) && forall k :: k in m ==> MinuteKey(m[k]).Some? && m[k].IsComplete()
  }

  /** Merging loses no minute, and a minute that was official stays official. */
  ghost predicate Supersedes(a: map<int, Candle>, b: map<int, Candle>) {
    forall k :: k in a ==> k in b && (a[k].source == Historical ==> b[k].source == Historical)
  }

  lemma {:induction false} MergeRowsKeeps(m: map<int, Candle>, rows: seq<Option<Candle>>)
    requires Bookable(m)
    ensures Bookable(MergeRows(m, rows)) && Supersedes(m, MergeRows(m, rows))
  {
    if rows != [] { MergeRowsKeeps(m, rows[..|rows| - 1]); }
  }

  lemma InOrderBook(m: map<int, Candle>)
    requires Bookable(m)
    ensures StrictMinutes(InOrder(m))
    ensures forall k :: CandleAt(InOrder(m), k) == Lookup(m, k)
  {
    InOrderFiles(m, SortKey);
    var keys, rows := SortedKeys(m.Keys), InOrder(m);
    SortedKeysExact(m.Keys);
    assert forall i :: 0 <= i < |keys| ==> keys[i] in keys;
    ValuesAt(m, keys);
  }
}
