/** Archiving a day and loading it back. */
module ArchiveDay {
  import opened Basics
  import opened OrderedRows
  import opened ArchiveRows

  datatype Numbers = Numbers(previousClose: Option<real>, todayOpen: Option<real>)

  datatype Stock = Stock(numbers: Numbers, candles: seq<Candle>)

  /** A payload: its session date if it has one, and its stocks, any of which may be missing. */
  datatype Payload = Payload(date: Option<int>, stocks: map<int, Option<Stock>>)

  datatype RefRow = RefRow(symbol: int, numbers: Numbers)

  /** What a day's directory holds; a count of 0 is a file the manifest does not mention. */
  datatype Stored = Stored(equity: Option<seq<Row>>, reference: Option<seq<RefRow>>, historical: bool,
                           equityCount: nat, referenceCount: nat)

  const NothingStored := Stored(None, None, false, 0, 0)

  datatype Day = Day(equity: Bars, reference: map<int, Numbers>)

  // ---- Payload rows ----

  function OrEmpty(stock: Option<Stock>): Stock {
    if stock.Some? then stock.value else Stock(Numbers(None, None), [])
  }

  function StockRows(symbol: int, candles: seq<Candle>): seq<Row> {
    seq(|candles|, k requires 0 <= k < |candles| => Row(symbol, candles[k]))
  }

  /** The rows of some symbols, one after another. */
  function RowsOf(stocks: map<int, Option<Stock>>, symbols: seq<int>): seq<Row>
    requires forall k :: 0 <= k < |symbols| ==> symbols[k] in stocks
  {
    if symbols == [] then []
    else
      var symbol := symbols[|symbols| - 1];
      RowsOf(stocks, symbols[..|symbols| - 1]) + StockRows(symbol, OrEmpty(stocks[symbol]).candles)
  }

  function RefRowsOf(stocks: map<int, Option<Stock>>, symbols: seq<int>): seq<RefRow>
    requires forall k :: 0 <= k < |symbols| ==> symbols[k] in stocks
  {
    seq(|symbols|, k requires 0 <= k < |symbols| => RefRow(symbols[k], OrEmpty(stocks[symbols[k]]).numbers))
  }

  lemma SymbolsListed(stocks: map<int, Option<Stock>>)
    ensures forall k :: 0 <= k < |SortedKeys(stocks.Keys)| ==> SortedKeys(stocks.Keys)[k] in stocks
  {
    SortedKeysExact(stocks.Keys);
    var symbols := SortedKeys(stocks.Keys);
    forall k | 0 <= k < |symbols| ensures symbols[k] in stocks { assert symbols[k] in symbols; }
  }

  ghost function Rows(p: Payload): seq<Row> {
    SymbolsListed(p.stocks);
    RowsOf(p.stocks, SortedKeys(p.stocks.Keys))
  }

  ghost function RefRows(p: Payload): seq<RefRow> {
    SymbolsListed(p.stocks);
    RefRowsOf(p.stocks, SortedKeys(p.stocks.Keys))
  }

  ghost predicate AllPresent(p: Payload) { forall symbol :: symbol in p.stocks ==> p.stocks[symbol].Some? }

  // ---- The day in memory and the day on disk ----

  /** `day_from_payloads`, for a payload with a session date. */
  ghost function LiveDay(p: Payload): Day {
    Day(BarsOf(Parse(Rows(p), false)), map symbol | symbol in p.stocks :: OrEmpty(p.stocks[symbol]).numbers)
  }

  /** The reference dictionary read from its file; a later row replaces an earlier one. */
  function Reference(rows: seq<RefRow>): map<int, Numbers> {
    if rows == [] then map[] else Reference(rows[..|rows| - 1])[rows[|rows| - 1].symbol := rows[|rows| - 1].numbers]
  }

  /** `load_day`: nothing without an equity file. */
  ghost function LoadedDay(s: Stored): Option<Day> {
    if s.equity.None? then None
    else
      Some(Day(BarsOf(Parse(s.equity.value, s.historical)),
               if s.reference.Some? then Reference(s.reference.value) else map[]))
  }

  // ---- Writing ----

  predicate EquityAccepted(s: Stored, rows: seq<Row>) { rows != [] && s.equityCount <= |rows| }

  function WriteEquityTable(s: Stored, rows: seq<Row>): Stored {
    if EquityAccepted(s, rows) then s.(equity := Some(rows), equityCount := |rows|) else s
  }

  function WriteReferenceTable(s: Stored, rows: seq<RefRow>): Stored {
    if rows != [] && s.referenceCount <= |rows| then s.(reference := Some(rows), referenceCount := |rows|) else s
  }

  /** The day's directory after `write_equity`. */
  function Written(s: Stored, rows: seq<Row>, refs: seq<RefRow>): Stored {
    if EquityAccepted(s, rows) then WriteReferenceTable(WriteEquityTable(s, rows), refs) else s
  }

  /** Where a write may be cut short: a file replaced, its count in the manifest not yet. */
  datatype Cut = NotCut | AfterEquityFile | AfterEquityManifest | AfterReferenceFile

  function CutShort(s: Stored, rows: seq<Row>, refs: seq<RefRow>, cut: Cut): Stored {
    if !EquityAccepted(s, rows) then s
    else
      var e := WriteEquityTable(s, rows);
      match cut
      case NotCut => Written(s, rows, refs)
      case AfterEquityFile => s.(equity := Some(rows))
      case AfterEquityManifest => e
      case AfterReferenceFile => if WriteReferenceTable(e, refs) == e then e else e.(reference := Some(refs))
  }

  ghost predicate DistinctSymbols(rows: seq<RefRow>) {
    forall j, k :: 0 <= j < k < |rows| ==> rows[j].symbol != rows[k].symbol
  }

  /** A file is never empty, and the manifest never counts more rows than its file holds. */
  ghost predicate Honest(s: Stored) {
    (s.equity.Some? ==> s.equity.value != []) &&
    (s.equityCount > 0 ==> s.equity.Some? && s.equityCount <= |s.equity.value|) &&
    (s.reference.Some? ==> DistinctSymbols(s.reference.value)) &&
    (s.referenceCount > 0 ==> s.reference.Some? && s.referenceCount <= |s.reference.value|)
  }

  datatype Attempt = Attempt(payload: Payload, cut: Cut)

  ghost function AfterAttempts(s: Stored, attempts: seq<Attempt>): Stored {
    if attempts == [] then s
    else
      var a := attempts[|attempts| - 1];
      CutShort(AfterAttempts(s, attempts[..|attempts| - 1]), Rows(a.payload), RefRows(a.payload), a.cut)
  }

  lemma RefRowsDistinct(p: Payload)
    ensures DistinctSymbols(RefRows(p)) && |RefRows(p)| == |p.stocks|
  {
    SortedKeysExact(p.stocks.Keys);
    KeyCount(p.stocks.Keys);
    assert |p.stocks.Keys| == |p.stocks|;
  }

  lemma {:induction false} KeyCount(s: set<int>)
    ensures |SortedKeys(s)| == |s|
    decreases |s|
  {
    if s != {} {
      LeastExists(s);
      var k := SortedKeys(s)[0];
      assert IsLeast(s, k) && SortedKeys(s) == [k] + SortedKeys(s - {k});
      KeyCount(s - {k});
    }
  }

  /** However many writes were tried and wherever they were cut short. */
  lemma {:induction false} DayStaysHonest(s: Stored, attempts: seq<Attempt>)
    requires Honest(s)
    ensures var t := AfterAttempts(s, attempts);
            Honest(t) && t.historical == s.historical && t.equityCount >= s.equityCount &&
            t.referenceCount >= s.referenceCount
  {
    hide Rows, RefRows;
    if attempts != [] {
      DayStaysHonest(s, attempts[..|attempts| - 1]);
      RefRowsDistinct(attempts[|attempts| - 1].payload);
    }
  }

  // ---- The reference table ----

  lemma {:induction false} ReferenceKeys(rows: seq<RefRow>)
    ensures forall symbol :: symbol in Reference(rows) <==> exists k :: 0 <= k < |rows| && rows[k].symbol == symbol
    ensures DistinctSymbols(rows) ==> |Reference(rows)| == |rows|
    ensures DistinctSymbols(rows) ==> forall k :: 0 <= k < |rows| ==> Reference(rows)[rows[k].symbol] == rows[k].numbers
  {
    if rows != [] {
      var front := rows[..|rows| - 1];
      ReferenceKeys(front);
      assert forall k :: 0 <= k < |front| ==> front[k] == rows[k];
      if DistinctSymbols(rows) { assert rows[|front|].symbol !in Reference(front); }
    }
  }

  /** Written in symbol order and read back, the reference is the payload's. */
  lemma ReferenceRoundTrip(p: Payload)
    ensures Reference(RefRows(p)) == LiveDay(p).reference
  {
    var rows := RefRows(p);
    RefRowsDistinct(p);
    ReferenceKeys(rows);
    SortedKeysExact(p.stocks.Keys);
    forall symbol | symbol in p.stocks
      ensures symbol in Reference(rows) && Reference(rows)[symbol] == LiveDay(p).reference[symbol]
    {
      var symbols := SortedKeys(p.stocks.Keys);
      assert symbol in symbols;
      var k :| 0 <= k < |symbols| && symbols[k] == symbol;
      assert rows[k].symbol == symbol;
    }
    forall symbol | symbol in Reference(rows) ensures symbol in p.stocks {
      var k :| 0 <= k < |rows| && rows[k].symbol == symbol;
      assert rows[k].symbol in SortedKeys(p.stocks.Keys);
    }
  }

  /** After an accepted equity write the stored reference is the payload's unless a larger one is kept. */
  lemma ReferenceExactlyWhen(s: Stored, p: Payload)
    requires Honest(s) && p.stocks != map[]
    ensures var t := WriteReferenceTable(s, RefRows(p));
            (t.reference.Some? && Reference(t.reference.value) == LiveDay(p).reference) <==>
            s.referenceCount <= |p.stocks|
  {
    hide RefRows, Reference;
    RefRowsDistinct(p);
    ReferenceRoundTrip(p);
    if s.referenceCount > |p.stocks| {
      ReferenceKeys(s.reference.value);
      ReferenceSize(p);
    }
  }

  lemma ReferenceSize(p: Payload)
    ensures |LiveDay(p).reference| == |p.stocks|
  {
    assert LiveDay(p).reference.Keys == p.stocks.Keys;
  }

  lemma RowsNeedStocks(p: Payload)
    ensures Rows(p) != [] ==> p.stocks != map[]
  {
    if p.stocks == map[] { assert SortedKeys(p.stocks.Keys) == []; }
  }

  /** The loaded equity bars are the payload's exactly when the write was accepted and no filler is dropped. */
  lemma EquityExactlyWhen(s: Stored, p: Payload)
    requires Honest(s)
    ensures var t := WriteEquityTable(s, Rows(p));
            (t.equity.Some? && BarsOf(Parse(t.equity.value, t.historical)) == LiveDay(p).equity) <==>
            Rows(p) != [] && s.equityCount <= |Rows(p)| && (!s.historical || !FillerComesFirst(Rows(p)))
  {
    hide Rows, Parse, BarsOf, FillerComesFirst;
    if EquityAccepted(s, Rows(p)) {
      FillersShowExactlyWhen(Rows(p));
    } else if s.equity.Some? && BarsOf(Parse(s.equity.value, s.historical)) == LiveDay(p).equity {
      SameBarsSameRowCount(s.equity.value, Rows(p), s.historical, false);
    }
  }

  /**
   * Archiving a payload and loading the day back gives the day built in memory exactly when the payload
   * has a candle, no larger table is already counted for that day, and, where the day was first written
   * by the historical bootstrap, no minute's first valid row is a filler.
   */
  lemma ArchivedDayIsLiveDay(s: Stored, p: Payload)
    requires Honest(s) && AllPresent(p)
    ensures LoadedDay(Written(s, Rows(p), RefRows(p))) == Some(LiveDay(p)) <==>
            Rows(p) != [] && s.equityCount <= |Rows(p)| && s.referenceCount <= |p.stocks| &&
            (!s.historical || !FillerComesFirst(Rows(p)))
  {
    hide Rows, RefRows, Parse, BarsOf, FillerComesFirst, Reference, LiveDay;
    EquityExactlyWhen(s, p);
    if EquityAccepted(s, Rows(p)) {
      RowsNeedStocks(p);
      var e := WriteEquityTable(s, Rows(p));
      ReferenceExactlyWhen(e, p);
      RefRowsDistinct(p);
      WrittenParts(s, Rows(p), RefRows(p));
    }
  }

  lemma WrittenParts(s: Stored, rows: seq<Row>, refs: seq<RefRow>)
    requires EquityAccepted(s, rows)
    ensures Written(s, rows, refs).equity == Some(rows) && Written(s, rows, refs).historical == s.historical
  {
  }

  /** A first write of the day with a candle always reads back as the live day. */
  lemma FirstWriteReadsBack(p: Payload)
    requires AllPresent(p) && Rows(p) != []
    ensures LoadedDay(Written(NothingStored, Rows(p), RefRows(p))) == Some(LiveDay(p))
  {
    ArchivedDayIsLiveDay(NothingStored, p);
  }

  // ---- The archive ----

  datatype Outcome = Wrote | NotWritten | Failed

  method ListRows(p: Payload) returns (ok: bool, rows: seq<Row>, refs: seq<RefRow>)
    ensures ok <==> AllPresent(p)
    ensures ok ==> rows == Rows(p) && refs == RefRows(p)
  {
    hide RowsOf, RefRowsOf;
    SymbolsListed(p.stocks);
    var symbols := SortKeys(p.stocks.Keys);
    ok, rows, refs := true, [], [];
    NoneListed(p.stocks);
    assert symbols[..0] == [];
    for n := 0 to |symbols|
      invariant rows == RowsOf(p.stocks, symbols[..n]) && refs == RefRowsOf(p.stocks, symbols[..n])
      invariant forall k :: 0 <= k < n ==> p.stocks[symbols[k]].Some?
    {
      var stock := p.stocks[symbols[n]];
      if stock.None? {
        MissingStock(p, symbols[n]);
        return false, rows, refs;
      }
      OneMoreListed(p.stocks, symbols, n);
      rows := rows + StockRows(symbols[n], stock.value.candles);
      refs := refs + [RefRow(symbols[n], stock.value.numbers)];
    }
    assert symbols[..|symbols|] == symbols;
    EveryoneListed(p, symbols);
  }

  lemma MissingStock(p: Payload, symbol: int)
    requires symbol in p.stocks && p.stocks[symbol].None?
    ensures !AllPresent(p)
  {
  }

  lemma NoneListed(stocks: map<int, Option<Stock>>)
    ensures RowsOf(stocks, []) == [] && RefRowsOf(stocks, []) == []
  {
  }

  lemma OneMoreListed(stocks: map<int, Option<Stock>>, symbols: seq<int>, n: nat)
    requires n < |symbols| && forall k :: 0 <= k < |symbols| ==> symbols[k] in stocks
    ensures RowsOf(stocks, symbols[..n + 1]) ==
            RowsOf(stocks, symbols[..n]) + StockRows(symbols[n], OrEmpty(stocks[symbols[n]]).candles)
    ensures RefRowsOf(stocks, symbols[..n + 1]) ==
            RefRowsOf(stocks, symbols[..n]) + [RefRow(symbols[n], OrEmpty(stocks[symbols[n]]).numbers)]
  {
    assert symbols[..n + 1][..n] == symbols[..n];
  }

  lemma EveryoneListed(p: Payload, symbols: seq<int>)
    requires symbols == SortedKeys(p.stocks.Keys)
    requires forall k :: 0 <= k < |symbols| ==> symbols[k] in p.stocks && p.stocks[symbols[k]].Some?
    ensures AllPresent(p)
  {
    SortedKeysExact(p.stocks.Keys);
    forall symbol | symbol in p.stocks ensures p.stocks[symbol].Some? { assert symbol in symbols; }
  }

  function Directory(days: map<int, Stored>, date: int): Stored { if date in days then days[date] else NothingStored }

  class DailyArchive {
    var days: map<int, Stored>

    constructor ()
      ensures days == map[]
    {
      days := map[];
    }

    /** `write_equity`: a payload without a date or stocks is ignored, one with a missing stock fails. */
    method WriteEquity(p: Payload) returns (outcome: Outcome)
      modifies this
      ensures outcome.Failed? <==> p.date.Some? && p.stocks != map[] && !AllPresent(p)
      ensures outcome.Wrote? <==>
              p.date.Some? && AllPresent(p) && Rows(p) != [] &&
              Directory(old(days), p.date.value).equityCount <= |Rows(p)|
      ensures !outcome.Wrote? ==> days == old(days)
      ensures outcome.Wrote? ==>
                days == old(days)[p.date.value := Written(Directory(old(days), p.date.value), Rows(p), RefRows(p))]
    {
      hide Rows, RefRows, AllPresent, Written;
      RowsNeedStocks(p);
      if p.date.None? || p.stocks == map[] { return NotWritten; }
      var ok, rows, refs := ListRows(p);
      if !ok { return Failed; }
      var s := Directory(days, p.date.value);
      if !EquityAccepted(s, rows) { return NotWritten; }
      days := days[p.date.value := Written(s, rows, refs)];
      outcome := Wrote;
    }

    /** `load_day`, without the index table. */
    method LoadDay(date: int) returns (day: Option<Day>)
      ensures day == LoadedDay(Directory(days, date))
    {
      var s := Directory(days, date);
      if s.equity.None? { return None; }
      var bars := ToBars(s.equity.value, s.historical);
      day := Some(Day(bars, if s.reference.Some? then Reference(s.reference.value) else map[]));
    }
  }

  /** `day_from_payloads`, without the index snapshots: an error without a session date. */
  method DayFromPayloads(p: Payload) returns (day: Option<Day>)
    ensures day == if p.date.None? then None else Some(LiveDay(p))
  {
    if p.date.None? { return None; }
    SymbolsListed(p.stocks);
    var symbols := SortKeys(p.stocks.Keys);
    var rows := [];
    for n := 0 to |symbols|
      invariant rows == RowsOf(p.stocks, symbols[..n])
    {
      assert symbols[..n + 1][..n] == symbols[..n];
      rows := rows + StockRows(symbols[n], OrEmpty(p.stocks[symbols[n]]).candles);
    }
    assert symbols[..|symbols|] == symbols;
    var bars := ToBars(rows, false);
    day := Some(Day(bars, map symbol | symbol in p.stocks :: OrEmpty(p.stocks[symbol]).numbers));
  }
}
