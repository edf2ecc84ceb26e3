/** The rows of a payload. */
module ArchivePayload {
  // What the tables of a payload list, and what the in-memory day has for reference, stock by stock.

  import opened Basics
  import opened OrderedRows
  import opened ArchiveRows
  import opened ArchiveDay

  /** The candles among some rows that are of one symbol, in order. */
  function CandlesOf(rows: seq<Row>, symbol: int): seq<Candle> {
    if rows == [] then []
    else
      CandlesOf(rows[..|rows| - 1], symbol) +
      if rows[|rows| - 1].symbol == symbol then [rows[|rows| - 1].candle] else []
  }

  ghost predicate SymbolsRise(rows: seq<Row>) {
    forall i, j :: 0 <= i < j < |rows| ==> rows[i].symbol <= rows[j].symbol
  }

  /** The candles a payload has for a symbol. */
  function Given(stocks: map<int, Option<Stock>>, symbol: int): seq<Candle> {
    if symbol in stocks && stocks[symbol].Some? then stocks[symbol].value.candles else []
  }

  lemma {:induction false} CandlesConcat(a: seq<Row>, b: seq<Row>, symbol: int)
    ensures CandlesOf(a + b, symbol) == CandlesOf(a, symbol) + CandlesOf(b, symbol)
  {
    if b == [] {
      assert a + b == a;
    } else {
      assert (a + b)[..|a + b| - 1] == a + b[..|b| - 1];
      CandlesConcat(a, b[..|b| - 1], symbol);
    }
  }

  lemma {:induction false} CandlesOfStock(symbol: int, candles: seq<Candle>, of: int)
    ensures CandlesOf(StockRows(symbol, candles), of) == if symbol == of then candles else []
  {
    var rows := StockRows(symbol, candles);
    if candles != [] {
      var n := |candles| - 1;
      assert rows[..n] == StockRows(symbol, candles[..n]);
      assert rows[n] == Row(symbol, candles[n]);
      CandlesOfStock(symbol, candles[..n], of);
      assert candles == candles[..n] + [candles[n]];
    }
  }

  ghost predicate Listable(stocks: map<int, Option<Stock>>, symbols: seq<int>) {
    (forall k :: 0 <= k < |symbols| ==> symbols[k] in stocks) &&
    forall j, k :: 0 <= j < k < |symbols| ==> symbols[j] < symbols[k]
  }

  lemma LastListed(stocks: map<int, Option<Stock>>, symbols: seq<int>)
    requires Listable(stocks, symbols) && symbols != []
    ensures var n := |symbols| - 1;
            Listable(stocks, symbols[..n]) && (forall k :: k in symbols[..n] ==> k < symbols[n]) &&
            symbols == symbols[..n] + [symbols[n]]
  {
  }

  lemma RowsOfLast(stocks: map<int, Option<Stock>>, symbols: seq<int>)
    requires Listable(stocks, symbols) && Listable(stocks, symbols[..MaxInt(|symbols| - 1, 0)]) && symbols != []
    ensures var n := |symbols| - 1;
            RowsOf(stocks, symbols) ==
            RowsOf(stocks, symbols[..n]) + StockRows(symbols[n], OrEmpty(stocks[symbols[n]]).candles)
  {
    hide StockRows, OrEmpty;
  }

  lemma {:induction false} RowsList(stocks: map<int, Option<Stock>>, symbols: seq<int>, symbol: int)
    requires Listable(stocks, symbols)
    ensures CandlesOf(RowsOf(stocks, symbols), symbol) == if symbol in symbols then Given(stocks, symbol) else []
  {
    if symbols != [] {
      var n := |symbols| - 1;
      var candles := OrEmpty(stocks[symbols[n]]).candles;
      LastListed(stocks, symbols);
      RowsOfLast(stocks, symbols);
      RowsList(stocks, symbols[..n], symbol);
      CandlesOfStock(symbols[n], candles, symbol);
      CandlesConcat(RowsOf(stocks, symbols[..n]), StockRows(symbols[n], candles), symbol);
      hide RowsOf, CandlesOf, StockRows;
    }
  }

  lemma {:induction false} RowsRise(stocks: map<int, Option<Stock>>, symbols: seq<int>)
    requires Listable(stocks, symbols)
    ensures SymbolsRise(RowsOf(stocks, symbols))
    ensures forall i :: 0 <= i < |RowsOf(stocks, symbols)| ==> RowsOf(stocks, symbols)[i].symbol in symbols
  {
    if symbols != [] {
      var n := |symbols| - 1;
      var last := StockRows(symbols[n], OrEmpty(stocks[symbols[n]]).candles);
      LastListed(stocks, symbols);
      RowsOfLast(stocks, symbols);
      RowsRise(stocks, symbols[..n]);
      assert forall i :: 0 <= i < |last| ==> last[i].symbol == symbols[n];
      hide RowsOf, StockRows, SymbolsRise;
      JoinRise(RowsOf(stocks, symbols[..n]), last, symbols[..n], symbols[n]);
    }
  }

  lemma JoinRise(front: seq<Row>, last: seq<Row>, before: seq<int>, symbol: int)
    requires SymbolsRise(front) && forall i :: 0 <= i < |front| ==> front[i].symbol in before
    requires forall i :: 0 <= i < |last| ==> last[i].symbol == symbol
    requires forall k :: k in before ==> k < symbol
    ensures SymbolsRise(front + last)
    ensures forall i :: 0 <= i < |front + last| ==> (front + last)[i].symbol in before + [symbol]
  {
  }

  /** The equity table lists each stock's candles in their order, stocks in the order of their symbols, nothing else. */
  lemma RowsOfPayload(p: Payload, symbol: int)
    ensures CandlesOf(Rows(p), symbol) == Given(p.stocks, symbol) && SymbolsRise(Rows(p))
    ensures forall i :: 0 <= i < |Rows(p)| ==> Rows(p)[i].symbol in p.stocks
  {
    SortedKeysExact(p.stocks.Keys);
    SymbolsListed(p.stocks);
    RowsList(p.stocks, SortedKeys(p.stocks.Keys), symbol);
    RowsRise(p.stocks, SortedKeys(p.stocks.Keys));
  }

  /** A stock's two numbers, or none for a missing stock. */
  predicate HasNumbers(n: Numbers, stock: Option<Stock>) {
    if stock.None? then n.previousClose == None && n.todayOpen == None
    else n.previousClose == stock.value.numbers.previousClose && n.todayOpen == stock.value.numbers.todayOpen
  }

  /** The reference table lists every stock once, in the order of the symbols, with its two numbers. */
  lemma RefRowsOfPayload(p: Payload, k: nat)
    ensures |RefRows(p)| == |p.stocks|
    ensures forall i, j :: 0 <= i < j < |RefRows(p)| ==> RefRows(p)[i].symbol < RefRows(p)[j].symbol
    ensures k < |RefRows(p)| ==>
      RefRows(p)[k].symbol in p.stocks && HasNumbers(RefRows(p)[k].numbers, p.stocks[RefRows(p)[k].symbol])
  {
    RefRowsDistinct(p);
    SortedKeysExact(p.stocks.Keys);
    SymbolsListed(p.stocks);
  }

  /** The in-memory day has for every stock of the payload its two numbers, and for no other. */
  lemma ReferenceOfPayload(p: Payload, symbol: int)
    ensures symbol in LiveDay(p).reference <==> symbol in p.stocks
    ensures symbol in p.stocks ==> HasNumbers(LiveDay(p).reference[symbol], p.stocks[symbol])
  {
    hide Parse, BarsOf, Rows;
  }
}
