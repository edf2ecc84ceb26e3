/** Archived candle rows read into bars. */
module ArchiveRows {
  import opened Basics
  import opened OrderedRows

  /** One candle as written: a field is None where it is not a finite number, or not a readable time. */
  datatype Candle = Candle(epoch: Option<int>, open: Option<real>, high: Option<real>, low: Option<real>,
                           close: Option<real>, volume: Option<real>)

  datatype Row = Row(symbol: int, candle: Candle)

  datatype Bar = Bar(open: real, high: real, low: real, close: real, volume: real)

  datatype Reason = BadTimestamp | MissingValue | InvalidOhlc | DuplicateMinute

  datatype Verdict = Good(epoch: int, bar: Bar) | Bad(at: Option<int>, reason: Reason)

  /** `_validate`. */
  function Validate(c: Candle): Verdict {
    if c.epoch.None? then Bad(None, BadTimestamp)
    else if c.open.None? || c.high.None? || c.low.None? || c.close.None? || c.volume.None? then
      Bad(c.epoch, MissingValue)
    else
      var b := Bar(c.open.value, c.high.value, c.low.value, c.close.value, c.volume.value);
      if b.high < MaxReal(b.open, b.close) || b.low > MinReal(b.open, b.close) || b.high < b.low || b.volume < 0.0 then
        Bad(c.epoch, InvalidOhlc)
      else Good(c.epoch.value, b)
  }

  /** A flat bar without volume: how the historical service fills minutes without a trade. */
  predicate IsFiller(b: Bar) { b.volume == 0.0 && b.open == b.high == b.low == b.close }

  datatype Slot = Slot(symbol: int, epoch: int)

  datatype Reject = Reject(at: Option<int>, reason: Reason)

  /** What the reader has gathered from the rows so far. */
  datatype Parsed = Parsed(symbols: set<int>, bars: map<Slot, Bar>, rejected: map<int, seq<Reject>>, noTrade: nat)

  function Rejecting(p: Parsed, symbol: int, r: Reject): Parsed {
    p.(rejected := p.rejected[symbol := (if symbol in p.rejected then p.rejected[symbol] else []) + [r]])
  }

  /** One turn of the loop of `_to_bars`. */
  function Take(p: Parsed, row: Row, dropFiller: bool): Parsed {
    var named := p.(symbols := p.symbols + {row.symbol});
    match Validate(row.candle)
    case Bad(at, reason) => Rejecting(named, row.symbol, Reject(at, reason))
    case Good(epoch, bar) =>
      if Slot(row.symbol, epoch) in p.bars then Rejecting(named, row.symbol, Reject(Some(epoch), DuplicateMinute))
      else if dropFiller && IsFiller(bar) then named.(noTrade := p.noTrade + 1)
      else named.(bars := p.bars[Slot(row.symbol, epoch) := bar])
  }

  function Parse(rows: seq<Row>, dropFiller: bool): Parsed {
    if rows == [] then Parsed({}, map[], map[], 0)
    else Take(Parse(rows[..|rows| - 1], dropFiller), rows[|rows| - 1], dropFiller)
  }

  // ---- Columnar bars ----

  /** One row per symbol, one column per minute; None where no bar was kept. */
  datatype Bars = Bars(symbols: seq<int>, minutes: seq<int>, cells: seq<seq<Option<Bar>>>,
                       rejected: map<int, seq<Reject>>, noTrade: nat)

  function Minutes(bars: map<Slot, Bar>): set<int> { set s | s in bars :: s.epoch }

  function RowCells(bars: map<Slot, Bar>, symbol: int, minutes: seq<int>): seq<Option<Bar>> {
    seq(|minutes|, j requires 0 <= j < |minutes| => Lookup(bars, Slot(symbol, minutes[j])))
  }

  function Cells(bars: map<Slot, Bar>, symbols: seq<int>, minutes: seq<int>): seq<seq<Option<Bar>>> {
    seq(|symbols|, i requires 0 <= i < |symbols| => RowCells(bars, symbols[i], minutes))
  }

  ghost function BarsOf(p: Parsed): Bars {
    var symbols, minutes := SortedKeys(p.symbols), SortedKeys(Minutes(p.bars));
    Bars(symbols, minutes, Cells(p.bars, symbols, minutes), p.rejected, p.noTrade)
  }

  method ParseRows(rows: seq<Row>, dropFiller: bool) returns (p: Parsed)
    ensures p == Parse(rows, dropFiller)
  {
    p := Parsed({}, map[], map[], 0);
    for n := 0 to |rows|
      invariant p == Parse(rows[..n], dropFiller)
    {
      assert rows[..n + 1][..n] == rows[..n];
      p := Take(p, rows[n], dropFiller);
    }
    assert rows[..|rows|] == rows;
  }

  /** `_to_bars`. */
  method ToBars(rows: seq<Row>, dropFiller: bool) returns (bars: Bars)
    ensures bars == BarsOf(Parse(rows, dropFiller))
  {
    hide Parse, Cells;
    var p := ParseRows(rows, dropFiller);
    var symbols := SortKeys(p.symbols);
    var minutes := SortKeys(Minutes(p.bars));
    bars := Bars(symbols, minutes, Cells(p.bars, symbols, minutes), p.rejected, p.noTrade);
  }

  // ---- The first valid row of a minute ----

  /** A row that can fill a slot. */
  ghost predicate Fills(row: Row, slot: Slot, dropFiller: bool) {
    var v := Validate(row.candle);
    row.symbol == slot.symbol && v.Good? && v.epoch == slot.epoch && !(dropFiller && IsFiller(v.bar))
  }

  ghost predicate FirstToFill(rows: seq<Row>, n: int, slot: Slot, dropFiller: bool) {
    0 <= n < |rows| && Fills(rows[n], slot, dropFiller) && forall m :: 0 <= m < n ==> !Fills(rows[m], slot, dropFiller)
  }

  /** A slot holds a bar exactly when some row can fill it, and then the first such row's. */
  lemma {:induction false} FirstRowIsKept(rows: seq<Row>, slot: Slot, dropFiller: bool)
    ensures slot in Parse(rows, dropFiller).bars <==> exists n :: 0 <= n < |rows| && Fills(rows[n], slot, dropFiller)
    ensures forall n :: FirstToFill(rows, n, slot, dropFiller) && slot in Parse(rows, dropFiller).bars ==>
              Parse(rows, dropFiller).bars[slot] == Validate(rows[n].candle).bar
  {
    if rows != [] {
      var front, last := rows[..|rows| - 1], |rows| - 1;
      FirstRowIsKept(front, slot, dropFiller);
      assert forall n :: 0 <= n < last ==> front[n] == rows[n];
      hide Parse;
      TakeSlot(Parse(front, dropFiller), rows[last], slot, dropFiller);
      ParseLast(rows, dropFiller);
      forall n | FirstToFill(rows, n, slot, dropFiller) && slot in Parse(rows, dropFiller).bars
        ensures Parse(rows, dropFiller).bars[slot] == Validate(rows[n].candle).bar
      {
        if n < last { assert FirstToFill(front, n, slot, dropFiller); }
      }
    }
  }

  lemma ParseLast(rows: seq<Row>, dropFiller: bool)
    requires rows != []
    ensures Parse(rows, dropFiller) == Take(Parse(rows[..|rows| - 1], dropFiller), rows[|rows| - 1], dropFiller)
  {
  }

  /** One row fills its own slot if that is still free, and no other. */
  lemma TakeSlot(p: Parsed, row: Row, slot: Slot, dropFiller: bool)
    ensures var q := Take(p, row, dropFiller);
            (slot in q.bars <==> slot in p.bars || Fills(row, slot, dropFiller)) &&
            (slot in p.bars ==> q.bars[slot] == p.bars[slot]) &&
            (slot !in p.bars && Fills(row, slot, dropFiller) ==> q.bars[slot] == Validate(row.candle).bar)
  {
  }

  // ---- Each row is counted once ----

  ghost function Lengths(m: map<int, seq<Reject>>): nat
    decreases |m|
  {
    if m == map[] then 0
    else
      LeastExists(m.Keys);
      var k :| IsLeast(m.Keys, k);
      |m[k]| + Lengths(m - {k})
  }

  lemma {:induction false} LengthsWithout(m: map<int, seq<Reject>>, k: int)
    requires k in m
    ensures Lengths(m) == |m[k]| + Lengths(m - {k})
    decreases |m|
  {
    LeastExists(m.Keys);
    var least: int :| IsLeast(m.Keys, least) && Lengths(m) == |m[least]| + Lengths(m - {least});
    if least != k {
      LengthsWithout(m - {least}, k);
      LengthsWithout(m - {k}, least);
      assert m - {least} - {k} == m - {k} - {least};
    }
  }

  lemma LengthsGrow(m: map<int, seq<Reject>>, k: int, r: Reject)
    ensures Lengths(m[k := (if k in m then m[k] else []) + [r]]) == Lengths(m) + 1
  {
    var longer := m[k := (if k in m then m[k] else []) + [r]];
    LengthsWithout(longer, k);
    assert longer - {k} == m - {k};
    if k in m { LengthsWithout(m, k); } else { assert m - {k} == m; }
  }

  /** Every row is one bar, one rejection, or one minute without a trade. */
  lemma {:induction false} EachRowCountsOnce(rows: seq<Row>, dropFiller: bool)
    ensures var p := Parse(rows, dropFiller); |p.bars| + Lengths(p.rejected) + p.noTrade == |rows|
  {
    if rows != [] {
      var front, row := rows[..|rows| - 1], rows[|rows| - 1];
      EachRowCountsOnce(front, dropFiller);
      var p := Parse(front, dropFiller);
      var v := Validate(row.candle);
      var at, reason := if v.Good? then Some(v.epoch) else v.at, if v.Good? then DuplicateMinute else v.reason;
      LengthsGrow(p.rejected, row.symbol, Reject(at, reason));
    }
  }

  // ---- What columnar bars determine ----

  ghost predicate Named(p: Parsed) { forall s :: s in p.bars ==> s.symbol in p.symbols }

  lemma {:induction false} ParseNamed(rows: seq<Row>, dropFiller: bool)
    ensures Named(Parse(rows, dropFiller))
  {
    if rows != [] { ParseNamed(rows[..|rows| - 1], dropFiller); }
  }

  /** A slot's cell. */
  lemma CellOf(p: Parsed, slot: Slot) returns (i: nat, j: nat)
    requires Named(p) && slot in p.bars
    ensures var b := BarsOf(p);
            i < |b.symbols| && j < |b.minutes| && |b.cells| == |b.symbols| && |b.cells[i]| == |b.minutes| &&
            b.symbols[i] == slot.symbol && b.minutes[j] == slot.epoch && b.cells[i][j] == Some(p.bars[slot])
  {
    SortedKeysExact(p.symbols);
    SortedKeysExact(Minutes(p.bars));
    assert slot.epoch in Minutes(p.bars);
    var symbols, minutes := SortedKeys(p.symbols), SortedKeys(Minutes(p.bars));
    i :| 0 <= i < |symbols| && symbols[i] == slot.symbol;
    j :| 0 <= j < |minutes| && minutes[j] == slot.epoch;
    assert Slot(slot.symbol, slot.epoch) == slot;
  }

  lemma SlotCarries(p: Parsed, q: Parsed, slot: Slot)
    requires Named(p) && BarsOf(p) == BarsOf(q) && slot in p.bars
    ensures slot in q.bars && q.bars[slot] == p.bars[slot]
  {
    var i, j := CellOf(p, slot);
    var b := BarsOf(q);
    assert b.cells[i][j] == Lookup(q.bars, Slot(b.symbols[i], b.minutes[j]));
    assert Slot(slot.symbol, slot.epoch) == slot;
  }

  /** Columnar bars lose nothing of what was gathered. */
  lemma BarsDetermine(p: Parsed, q: Parsed)
    requires Named(p) && Named(q) && BarsOf(p) == BarsOf(q)
    ensures p.bars == q.bars && p.rejected == q.rejected && p.noTrade == q.noTrade
  {
    forall slot | slot in p.bars ensures slot in q.bars && q.bars[slot] == p.bars[slot] { SlotCarries(p, q, slot); }
    forall slot | slot in q.bars ensures slot in p.bars { SlotCarries(q, p, slot); }
  }

  /** Equal bars come from equally many rows. */
  lemma SameBarsSameRowCount(a: seq<Row>, b: seq<Row>, dropA: bool, dropB: bool)
    requires BarsOf(Parse(a, dropA)) == BarsOf(Parse(b, dropB))
    ensures |a| == |b|
  {
    hide Parse, BarsOf;
    ParseNamed(a, dropA);
    ParseNamed(b, dropB);
    BarsDetermine(Parse(a, dropA), Parse(b, dropB));
    EachRowCountsOnce(a, dropA);
    EachRowCountsOnce(b, dropB);
  }

  // ---- Filler bars ----

  /** Some minute of some symbol has a filler as its first valid row. */
  ghost predicate FillerComesFirst(rows: seq<Row>) {
    exists n :: 0 <= n < |rows| && FillerFirstAt(rows, n)
  }

  ghost predicate FillerFirstAt(rows: seq<Row>, n: nat)
    requires n < |rows|
  {
    var v := Validate(rows[n].candle);
    v.Good? && IsFiller(v.bar) && FirstToFill(rows, n, Slot(rows[n].symbol, v.epoch), false)
  }

  /** Keeping fillers or not makes no difference exactly when no filler is the first valid row of its minute. */
  lemma {:induction false} FillersMatterExactlyWhen(rows: seq<Row>)
    ensures Parse(rows, false).noTrade == 0
    ensures FillerComesFirst(rows) ==> Parse(rows, true).noTrade > 0
    ensures !FillerComesFirst(rows) ==> Parse(rows, true) == Parse(rows, false)
  {
    if rows != [] {
      var front, last := rows[..|rows| - 1], |rows| - 1;
      FillersMatterExactlyWhen(front);
      hide Parse;
      ParseLast(rows, true);
      ParseLast(rows, false);
      FillerFront(rows);
      if FillerComesFirst(front) {
        TakeKeepsNoTrade(Parse(front, true), rows[last]);
      } else {
        var v := Validate(rows[last].candle);
        if v.Good? {
          FirstRowIsKept(front, Slot(rows[last].symbol, v.epoch), false);
          FirstInFront(rows);
        }
      }
    }
  }

  lemma TakeKeepsNoTrade(p: Parsed, row: Row)
    ensures Take(p, row, true).noTrade >= p.noTrade
  {
  }

  /** The last row is the first to fill its slot exactly when none before can. */
  lemma FirstInFront(rows: seq<Row>)
    requires rows != [] && Validate(rows[|rows| - 1].candle).Good?
    ensures var front, row := rows[..|rows| - 1], rows[|rows| - 1];
            var slot := Slot(row.symbol, Validate(row.candle).epoch);
            FirstToFill(rows, |rows| - 1, slot, false) <==>
            !exists n :: 0 <= n < |front| && Fills(front[n], slot, false)
  {
  }

  lemma FillerFront(rows: seq<Row>)
    requires rows != []
    ensures FillerComesFirst(rows) <==> FillerComesFirst(rows[..|rows| - 1]) || FillerFirstAt(rows, |rows| - 1)
  {
    var front := rows[..|rows| - 1];
    forall n | 0 <= n < |front| ensures FillerFirstAt(rows, n) <==> FillerFirstAt(front, n) {
      FirstAgrees(rows, n);
    }
    if FillerComesFirst(front) {
      var n :| 0 <= n < |front| && FillerFirstAt(front, n);
      assert FillerFirstAt(rows, n);
    }
  }

  lemma FirstAgrees(rows: seq<Row>, n: nat)
    requires n < |rows| - 1
    ensures FillerFirstAt(rows, n) <==> FillerFirstAt(rows[..|rows| - 1], n)
  {
    var front := rows[..|rows| - 1];
    assert forall m :: 0 <= m <= n ==> front[m] == rows[m];
  }

  /** So reading rows with or without fillers gives the same bars exactly then. */
  lemma FillersShowExactlyWhen(rows: seq<Row>)
    ensures BarsOf(Parse(rows, true)) == BarsOf(Parse(rows, false)) <==> !FillerComesFirst(rows)
  {
    hide Parse, FillerComesFirst;
    FillersMatterExactlyWhen(rows);
  }
}
