/** What the bars of a day mean. */
module ArchiveCells {
  // Which rows end up as which cells, with which fields, and why each other row does not, in terms of the
  // numbers in the rows.

  import opened Basics
  import opened OrderedRows
  import opened ArchiveRows

  /** All five numbers are there. */
  predicate Numeric(c: Candle) { c.open.Some? && c.high.Some? && c.low.Some? && c.close.Some? && c.volume.Some? }

  /** Open and close lie between low and high, and the volume is not negative. */
  predicate Shaped(c: Candle)
    requires Numeric(c)
  {
    c.low.value <= c.open.value <= c.high.value && c.low.value <= c.close.value <= c.high.value && c.volume.value >= 0.0
  }

  /** All prices are the same and nothing was traded. */
  predicate Flat(c: Candle) { c.open == c.high == c.low == c.close && c.volume == Some(0.0) }

  /** The row has a bar for this symbol and time. */
  predicate BarRow(row: Row, symbol: int, epoch: int, dropFiller: bool) {
    row.symbol == symbol && row.candle.epoch == Some(epoch) && Numeric(row.candle) && Shaped(row.candle) &&
    !(dropFiller && Flat(row.candle))
  }

  predicate BarAt(rows: seq<Row>, n: int, symbol: int, epoch: int, dropFiller: bool) {
    0 <= n < |rows| && BarRow(rows[n], symbol, epoch, dropFiller)
  }

  /** The first row with a bar for this symbol and time. */
  ghost predicate FirstBar(rows: seq<Row>, n: int, symbol: int, epoch: int, dropFiller: bool) {
    BarAt(rows, n, symbol, epoch, dropFiller) && forall m :: 0 <= m < n ==> !BarAt(rows, m, symbol, epoch, dropFiller)
  }

  /** The bar has the row's fields, each by its name. */
  ghost predicate HasFields(b: Bar, c: Candle) {
    Some(b.open) == c.open && Some(b.high) == c.high && Some(b.low) == c.low && Some(b.close) == c.close &&
    Some(b.volume) == c.volume
  }

  lemma FillsIsBarRow(row: Row, slot: Slot, dropFiller: bool)
    ensures Fills(row, slot, dropFiller) <==> BarRow(row, slot.symbol, slot.epoch, dropFiller)
    ensures Fills(row, slot, dropFiller) ==> HasFields(Validate(row.candle).bar, row.candle)
  {
  }

  lemma FirstOf(rows: seq<Row>, symbol: int, epoch: int, dropFiller: bool) returns (n: int)
    requires exists m :: BarAt(rows, m, symbol, epoch, dropFiller)
    ensures FirstBar(rows, n, symbol, epoch, dropFiller)
  {
    n := 0;
    while !BarAt(rows, n, symbol, epoch, dropFiller)
      invariant 0 <= n <= |rows| && forall m :: 0 <= m < n ==> !BarAt(rows, m, symbol, epoch, dropFiller)
      decreases |rows| - n
    {
      n := n + 1;
    }
  }

  /** What is gathered for a symbol and time: the fields of the first row with a bar for them, or nothing. */
  lemma GatheredByName(rows: seq<Row>, symbol: int, epoch: int, dropFiller: bool)
    ensures var bars := Parse(rows, dropFiller).bars;
            if Slot(symbol, epoch) in bars
            then exists n :: FirstBar(rows, n, symbol, epoch, dropFiller) &&
                             HasFields(bars[Slot(symbol, epoch)], rows[n].candle)
            else forall n :: !BarAt(rows, n, symbol, epoch, dropFiller)
  {
    var slot := Slot(symbol, epoch);
    FirstRowIsKept(rows, slot, dropFiller);
    forall n | 0 <= n < |rows| ensures Fills(rows[n], slot, dropFiller) <==> BarAt(rows, n, symbol, epoch, dropFiller) {
      FillsIsBarRow(rows[n], slot, dropFiller);
    }
    hide Parse, Validate;
    if slot in Parse(rows, dropFiller).bars {
      var m :| 0 <= m < |rows| && Fills(rows[m], slot, dropFiller);
      assert BarAt(rows, m, symbol, epoch, dropFiller);
      var n := FirstOf(rows, symbol, epoch, dropFiller);
      FillsIsBarRow(rows[n], slot, dropFiller);
      assert FirstToFill(rows, n, slot, dropFiller);
    } else {
      forall n ensures !BarAt(rows, n, symbol, epoch, dropFiller) {
        assert 0 <= n < |rows| ==> !Fills(rows[n], slot, dropFiller);
      }
    }
  }

  // ---- Columns and rows ----

  lemma {:induction false} SymbolsOfRows(rows: seq<Row>, dropFiller: bool, symbol: int)
    ensures symbol in Parse(rows, dropFiller).symbols <==> exists n :: 0 <= n < |rows| && rows[n].symbol == symbol
  {
    if rows != [] {
      var front, last := rows[..|rows| - 1], |rows| - 1;
      SymbolsOfRows(front, dropFiller, symbol);
      assert forall n :: 0 <= n < last ==> front[n] == rows[n];
      assert Parse(rows, dropFiller).symbols == Parse(front, dropFiller).symbols + {rows[last].symbol};
      assert rows[last].symbol == symbol ==> exists n :: 0 <= n < |rows| && rows[n].symbol == symbol;
      hide Parse;
    }
  }

  /** The rows of the table are the symbols named, its columns the times of some bar, both rising. */
  lemma TableAxes(rows: seq<Row>, dropFiller: bool)
    ensures var b := BarsOf(Parse(rows, dropFiller));
            (forall i, j :: 0 <= i < j < |b.symbols| ==> b.symbols[i] < b.symbols[j]) &&
            (forall i, j :: 0 <= i < j < |b.minutes| ==> b.minutes[i] < b.minutes[j]) &&
            (forall symbol :: symbol in b.symbols <==> exists n :: 0 <= n < |rows| && rows[n].symbol == symbol) &&
            (forall epoch :: epoch in b.minutes <==>
                             exists n, symbol :: BarAt(rows, n, symbol, epoch, dropFiller))
  {
    var p := Parse(rows, dropFiller);
    SortedKeysExact(p.symbols);
    SortedKeysExact(Minutes(p.bars));
    forall symbol ensures symbol in p.symbols <==> exists n :: 0 <= n < |rows| && rows[n].symbol == symbol {
      SymbolsOfRows(rows, dropFiller, symbol);
    }
    hide Parse, BarAt;
    forall epoch ensures epoch in Minutes(p.bars) <==> exists n, symbol :: BarAt(rows, n, symbol, epoch, dropFiller) {
      TimesOfRows(rows, dropFiller, epoch);
    }
  }

  lemma TimesOfRows(rows: seq<Row>, dropFiller: bool, epoch: int)
    ensures epoch in Minutes(Parse(rows, dropFiller).bars) <==>
            exists n, symbol :: BarAt(rows, n, symbol, epoch, dropFiller)
  {
    hide Parse, BarAt;
    var bars := Parse(rows, dropFiller).bars;
    if epoch in Minutes(bars) {
      var slot :| slot in bars && slot.epoch == epoch;
      GatheredByName(rows, slot.symbol, epoch, dropFiller);
      assert Slot(slot.symbol, epoch) == slot;
    }
    if n, symbol :| BarAt(rows, n, symbol, epoch, dropFiller) {
      GatheredByName(rows, symbol, epoch, dropFiller);
      assert Slot(symbol, epoch) in bars;
    }
  }

  /**
   * Each cell of the table has a bar exactly when some row has one for its symbol and time, and then the five
   * numbers of the first such row, each under its own name.
   */
  lemma CellsByName(rows: seq<Row>, dropFiller: bool, i: nat, j: nat)
    requires var b := BarsOf(Parse(rows, dropFiller)); i < |b.symbols| && j < |b.minutes|
    ensures var b := BarsOf(Parse(rows, dropFiller));
            |b.cells| == |b.symbols| && |b.cells[i]| == |b.minutes| &&
            if b.cells[i][j].Some?
            then exists n :: FirstBar(rows, n, b.symbols[i], b.minutes[j], dropFiller) &&
                             HasFields(b.cells[i][j].value, rows[n].candle)
            else forall n :: !BarAt(rows, n, b.symbols[i], b.minutes[j], dropFiller)
  {
    hide Parse, FirstBar, BarAt, HasFields;
    var b := BarsOf(Parse(rows, dropFiller));
    GatheredByName(rows, b.symbols[i], b.minutes[j], dropFiller);
  }

  // ---- What is rejected ----

  /** Why a row has no bar of its own: its time, its numbers, their shape, or an earlier bar of its symbol and time. */
  ghost function Rejection(rows: seq<Row>, n: nat, dropFiller: bool): Option<Reject>
    requires n < |rows|
  {
    var row := rows[n];
    if row.candle.epoch.None? then Some(Reject(None, BadTimestamp))
    else if !Numeric(row.candle) then Some(Reject(row.candle.epoch, MissingValue))
    else if !Shaped(row.candle) then Some(Reject(row.candle.epoch, InvalidOhlc))
    else if exists m :: m < n && BarAt(rows, m, row.symbol, row.candle.epoch.value, dropFiller) then
      Some(Reject(row.candle.epoch, DuplicateMinute))
    else None
  }

  /** The rejections of a symbol among the first `n` rows, in order. */
  ghost function Rejections(rows: seq<Row>, n: nat, symbol: int, dropFiller: bool): seq<Reject>
    requires n <= |rows|
  {
    if n == 0 then []
    else
      Rejections(rows, n - 1, symbol, dropFiller) +
      if rows[n - 1].symbol == symbol && Rejection(rows, n - 1, dropFiller).Some?
      then [Rejection(rows, n - 1, dropFiller).value] else []
  }

  /** How many of the first `n` rows are dropped as minutes without a trade. */
  ghost function DroppedOf(rows: seq<Row>, n: nat, dropFiller: bool): nat
    requires n <= |rows|
  {
    if n == 0 then 0
    else
      DroppedOf(rows, n - 1, dropFiller) +
      if dropFiller && Flat(rows[n - 1].candle) && Rejection(rows, n - 1, dropFiller).None? then 1 else 0
  }

  lemma {:induction false} FrontAgrees(rows: seq<Row>, front: seq<Row>, n: nat, symbol: int, dropFiller: bool)
    requires front <= rows && n <= |front|
    ensures Rejections(front, n, symbol, dropFiller) == Rejections(rows, n, symbol, dropFiller)
    ensures DroppedOf(front, n, dropFiller) == DroppedOf(rows, n, dropFiller)
  {
    if n > 0 {
      FrontAgrees(rows, front, n - 1, symbol, dropFiller);
      assert front[n - 1] == rows[n - 1];
      RejectionAgrees(rows, front, n - 1, dropFiller);
      hide Rejection;
    }
  }

  lemma BarsBefore(rows: seq<Row>, front: seq<Row>, n: nat, symbol: int, epoch: int, dropFiller: bool)
    requires front <= rows && n <= |front|
    ensures forall m :: m < n ==>
              (BarAt(front, m, symbol, epoch, dropFiller) <==> BarAt(rows, m, symbol, epoch, dropFiller))
  {
  }

  lemma RejectionAgrees(rows: seq<Row>, front: seq<Row>, n: nat, dropFiller: bool)
    requires front <= rows && n < |front|
    ensures Rejection(front, n, dropFiller) == Rejection(rows, n, dropFiller)
  {
    var symbol, epoch := rows[n].symbol, rows[n].candle.epoch;
    if epoch.Some? { BarsBefore(rows, front, n, symbol, epoch.value, dropFiller); }
    hide BarAt, Shaped, Numeric;
  }

  /** What one turn of the loop does with the last row. */
  lemma TakeLast(rows: seq<Row>, dropFiller: bool)
    requires rows != []
    ensures var front, n := rows[..|rows| - 1], |rows| - 1;
            var p := Parse(front, dropFiller);
            var q, r := Take(p, rows[n], dropFiller), Rejection(rows, n, dropFiller);
            q.rejected == (if r.Some? then Rejecting(p, rows[n].symbol, r.value).rejected else p.rejected) &&
            q.noTrade == p.noTrade + if dropFiller && Flat(rows[n].candle) && r.None? then 1 else 0
  {
    var front, n := rows[..|rows| - 1], |rows| - 1;
    var symbol, c := rows[n].symbol, rows[n].candle;
    hide Parse;
    if c.epoch.Some? {
      GatheredByName(front, symbol, c.epoch.value, dropFiller);
      BarsBefore(rows, front, n, symbol, c.epoch.value, dropFiller);
      assert Slot(symbol, c.epoch.value) in Parse(front, dropFiller).bars <==>
             exists m :: m < n && BarAt(rows, m, symbol, c.epoch.value, dropFiller);
    }
    hide BarAt, FirstBar, HasFields;
  }

  function Listed(rejected: map<int, seq<Reject>>, symbol: int): seq<Reject> {
    if symbol in rejected then rejected[symbol] else []
  }

  ghost predicate AllListed(rejected: map<int, seq<Reject>>) { forall k :: k in rejected ==> rejected[k] != [] }

  lemma RejectingLists(p: Parsed, symbol: int, r: Reject, of: int)
    requires AllListed(p.rejected)
    ensures Listed(Rejecting(p, symbol, r).rejected, of) == Listed(p.rejected, of) + if symbol == of then [r] else []
    ensures AllListed(Rejecting(p, symbol, r).rejected)
  {
  }

  lemma LastListed(rows: seq<Row>, symbol: int, dropFiller: bool)
    requires rows != [] && AllListed(Parse(rows[..|rows| - 1], dropFiller).rejected)
    ensures var front, n := rows[..|rows| - 1], |rows| - 1;
            var p, q, r := Parse(front, dropFiller), Parse(rows, dropFiller), Rejection(rows, n, dropFiller);
            AllListed(q.rejected) &&
            Listed(q.rejected, symbol) ==
              Listed(p.rejected, symbol) + (if rows[n].symbol == symbol && r.Some? then [r.value] else []) &&
            q.noTrade == p.noTrade + if dropFiller && Flat(rows[n].candle) && r.None? then 1 else 0
  {
    var front, n := rows[..|rows| - 1], |rows| - 1;
    var r := Rejection(rows, n, dropFiller);
    ParseLast(rows, dropFiller);
    TakeLast(rows, dropFiller);
    if r.Some? { RejectingLists(Parse(front, dropFiller), rows[n].symbol, r.value, symbol); }
    hide Parse, Take, Rejection, Rejecting, AllListed, Flat;
    assert Listed(Parse(front, dropFiller).rejected, symbol) + [] == Listed(Parse(front, dropFiller).rejected, symbol);
  }

  /**
   * Each symbol's rejections are those of its rows that have no bar of their own, in order, each with its
   * time and its reason; and minutes without a trade are the dropped ones.
   */
  lemma {:induction false} RejectionsByReason(rows: seq<Row>, symbol: int, dropFiller: bool)
    ensures var p := Parse(rows, dropFiller);
            AllListed(p.rejected) &&
            Listed(p.rejected, symbol) == Rejections(rows, |rows|, symbol, dropFiller) &&
            p.noTrade == DroppedOf(rows, |rows|, dropFiller)
  {
    if rows != [] {
      var front := rows[..|rows| - 1];
      RejectionsByReason(front, symbol, dropFiller);
      FrontAgrees(rows, front, |front|, symbol, dropFiller);
      LastListed(rows, symbol, dropFiller);
      hide Parse, Rejection, Flat, Listed, AllListed;
    }
  }
}
