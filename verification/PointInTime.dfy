/** The market as known at one moment. */
module PointInTime {
  import opened Basics
  import opened OrderedRows
  import opened SessionClock

  /** Instruments are numbered in the order their symbols sort. */
  type Symbol = int

  datatype Bar = Bar(open: real, high: real, low: real, close: real, volume: real)

  /** A rejected row: its bar-open time, unless that itself could not be read, and the reason. */
  datatype Rejection = Rejection(epoch: Option<int>, reason: string)

  /** One row of cells per instrument, one column per minute; a cell without a bar is None. */
  datatype Bars = Bars(
    keys: seq<Symbol>, names: seq<Symbol>, minutes: seq<int>, cells: seq<seq<Option<Bar>>>,
    rejected: map<Symbol, seq<Rejection>>)

  datatype Reference = Reference(previousClose: Option<real>, todayOpen: Option<real>)

  datatype Day =
    Day(session: int, equity: Bars, indices: Option<Bars>, reference: map<Symbol, Reference>, synthetic: bool)

  datatype Frame = Frame(
    session: int, asOf: int, grid: seq<int>, equity: Bars, indices: Option<Bars>, reference: map<Symbol, Reference>,
    synthetic: bool)

  // ---- Alignment ----

  ghost predicate Shaped(b: Bars) {
    && |b.names| == |b.keys| == |b.cells|
    && (forall i :: 0 <= i < |b.cells| ==> |b.cells[i]| == |b.minutes|)
    && (forall i, j :: 0 <= i < j < |b.minutes| ==> b.minutes[i] < b.minutes[j])
    && (forall i, j :: 0 <= i < j < |b.keys| ==> b.keys[i] < b.keys[j])
  }

  /** The column of a minute, or the number of columns. */
  function Column(minutes: seq<int>, minute: int): (j: nat)
    ensures j <= |minutes|
    ensures j < |minutes| ==> minutes[j] == minute
    ensures forall k :: 0 <= k < j ==> minutes[k] != minute
  {
    if minutes == [] || minutes[0] == minute then 0 else 1 + Column(minutes[1..], minute)
  }

  /** The bar of row `i` at a minute, if there is one. */
  function CellAt(b: Bars, i: nat, minute: int): Option<Bar>
    requires i < |b.cells| && |b.cells[i]| == |b.minutes|
  {
    var j := Column(b.minutes, minute);
    if j < |b.minutes| then b.cells[i][j] else None
  }

  /** A rejection is known once its bar has closed; one without a time is never known. */
  predicate Known(r: Rejection, asOf: int) { r.epoch.Some? && r.epoch.value + BAR_SECONDS <= asOf }

  function KnownOf(rows: seq<Rejection>, asOf: int): seq<Rejection> {
    if rows == [] then []
    else
      var init, last := KnownOf(rows[..|rows| - 1], asOf), rows[|rows| - 1];
      if Known(last, asOf) then init + [last] else init
  }

  function KnownRejections(rejected: map<Symbol, seq<Rejection>>, asOf: int): map<Symbol, seq<Rejection>> {
    map k | k in rejected && KnownOf(rejected[k], asOf) != [] :: KnownOf(rejected[k], asOf)
  }

  /** `_align`: the bars of the grid's minutes, everything else left out. */
  ghost function Aligned(b: Bars, grid: seq<int>, asOf: int): Bars
    requires Shaped(b)
  {
    Bars(b.keys, b.names, grid, seq(|b.keys|, i requires 0 <= i < |b.keys| => RowOn(b, i, grid)),
         KnownRejections(b.rejected, asOf))
  }

  ghost function RowOn(b: Bars, i: nat, grid: seq<int>): seq<Option<Bar>>
    requires Shaped(b) && i < |b.keys|
  {
    seq(|grid|, c requires 0 <= c < |grid| => CellAt(b, i, grid[c]))
  }

  ghost function FrameAt(d: Day, asOf: int): Frame
    requires Shaped(d.equity) && (d.indices.Some? ==> Shaped(d.indices.value))
  {
    var grid := Grid(d.session, asOf);
    Frame(d.session, asOf, grid, Aligned(d.equity, grid, asOf),
          if d.indices.Some? then Some(Aligned(d.indices.value, grid, asOf)) else None, d.reference, d.synthetic)
  }

  /** `np.searchsorted`: how many grid minutes lie before a minute, found by halving. */
  method SearchSorted(grid: seq<int>, minute: int) returns (c: nat)
    requires forall i, j :: 0 <= i < j < |grid| ==> grid[i] < grid[j]
    ensures c <= |grid|
    ensures forall k :: 0 <= k < c ==> grid[k] < minute
    ensures forall k :: c <= k < |grid| ==> minute <= grid[k]
  {
    var lo, hi := 0, |grid|;
    while lo < hi
      invariant 0 <= lo <= hi <= |grid|
      invariant forall k :: 0 <= k < lo ==> grid[k] < minute
      invariant forall k :: hi <= k < |grid| ==> minute <= grid[k]
    {
      var mid := (lo + hi) / 2;
      if grid[mid] < minute { lo := mid + 1; } else { hi := mid; }
    }
    c := lo;
  }

  /** Copy one row onto the grid: each bar of a grid minute to that minute's column. */
  method AlignRow(b: Bars, i: nat, grid: seq<int>) returns (row: seq<Option<Bar>>)
    requires Shaped(b) && i < |b.keys|
    requires forall p, q :: 0 <= p < q < |grid| ==> grid[p] < grid[q]
    ensures row == RowOn(b, i, grid)
  {
    row := seq(|grid|, _ => None);
    for j := 0 to |b.minutes|
      invariant |row| == |grid|
      invariant forall c :: 0 <= c < |grid| ==>
        row[c] == if Column(b.minutes, grid[c]) < j then CellAt(b, i, grid[c]) else None
    {
      var column := SearchSorted(grid, b.minutes[j]);
      ColumnOfMinute(b.minutes, j);
      if column < |grid| && grid[column] == b.minutes[j] {
        row := row[column := b.cells[i][j]];
      }
    }
  }

  lemma ColumnOfMinute(minutes: seq<int>, j: nat)
    requires j < |minutes| && forall p, q :: 0 <= p < q < |minutes| ==> minutes[p] < minutes[q]
    ensures Column(minutes, minutes[j]) == j
  {
  }

  method Align(b: Bars, grid: seq<int>, asOf: int) returns (aligned: Bars)
    requires Shaped(b)
    requires forall p, q :: 0 <= p < q < |grid| ==> grid[p] < grid[q]
    ensures aligned == Aligned(b, grid, asOf)
  {
    var cells := [];
    for i := 0 to |b.keys|
      invariant |cells| == i && forall k :: 0 <= k < i ==> cells[k] == RowOn(b, k, grid)
    {
      var row := AlignRow(b, i, grid);
      cells := cells + [row];
    }
    aligned := Bars(b.keys, b.names, grid, cells, KnownRejections(b.rejected, asOf));
  }

  // ---- The decision universe ----

  ghost predicate HasBar(b: Bars, key: Symbol) {
    exists i, c :: 0 <= i < |b.keys| && 0 <= i < |b.cells| && 0 <= c < |b.cells[i]| &&
                   b.keys[i] == key && b.cells[i][c].Some?
  }

  /** The configured symbols and every other symbol with a bar in the frame. */
  ghost function UniverseKeys(b: Bars, universe: set<Symbol>): set<Symbol> {
    universe + set k | k in b.keys && HasBar(b, k)
  }

  /** The row of a symbol, all empty if the frame has none. */
  ghost function RowOf(b: Bars, key: Symbol): seq<Option<Bar>> {
    var i := Column(b.keys, key);
    if i < |b.keys| && i < |b.cells| then b.cells[i] else seq(|b.minutes|, _ => None)
  }

  ghost function NameOf(b: Bars, key: Symbol): Symbol {
    var i := Column(b.keys, key);
    if i < |b.keys| && i < |b.names| then b.names[i] else key
  }

  /** `universe_frame`'s equity block. */
  ghost function Restricted(b: Bars, universe: set<Symbol>): Bars {
    var keys := SortedKeys(UniverseKeys(b, universe));
    Bars(keys, seq(|keys|, i requires 0 <= i < |keys| => NameOf(b, keys[i])), b.minutes,
         seq(|keys|, i requires 0 <= i < |keys| => RowOf(b, keys[i])),
         map k | k in b.rejected && k in UniverseKeys(b, universe) :: b.rejected[k])
  }

  ghost function UniverseFrame(f: Frame, universe: set<Symbol>): Frame { f.(equity := Restricted(f.equity, universe)) }

  /** `universe_frame` applied to one block: rows picked by symbol, empty rows for symbols without data. */
  method RestrictToUniverse(b: Bars, universe: set<Symbol>) returns (r: Bars)
    requires Shaped(b)
    ensures r == Restricted(b, universe)
  {
    var wanted := universe;
    for i := 0 to |b.keys|
      invariant forall k :: k in wanted <==>
                k in universe || exists j :: 0 <= j < i && b.keys[j] == k && SomeBar(b.cells[j])
    {
      if SomeBar(b.cells[i]) {
        wanted := wanted + {b.keys[i]};
      }
    }
    UniverseByRows(b, universe);
    forall k ensures k in wanted <==> k in UniverseKeys(b, universe) {}
    assert wanted == UniverseKeys(b, universe);
    var keys := SortKeys(wanted);
    var names, cells := [], [];
    for i := 0 to |keys|
      invariant |names| == |cells| == i
      invariant forall k :: 0 <= k < i ==> names[k] == NameOf(b, keys[k]) && cells[k] == RowOf(b, keys[k])
    {
      var at := Column(b.keys, keys[i]);
      names := names + [if at < |b.keys| then b.names[at] else keys[i]];
      cells := cells + [if at < |b.keys| then b.cells[at] else seq(|b.minutes|, _ => None)];
    }
    r := Bars(keys, names, b.minutes, cells, map k | k in b.rejected && k in wanted :: b.rejected[k]);
    assert r.names == Restricted(b, universe).names && r.cells == Restricted(b, universe).cells;
  }

  predicate SomeBar(row: seq<Option<Bar>>) { exists c :: 0 <= c < |row| && row[c].Some? }

  lemma UniverseByRows(b: Bars, universe: set<Symbol>)
    requires Shaped(b)
    ensures forall k :: k in UniverseKeys(b, universe) <==>
                   k in universe || exists j :: 0 <= j < |b.keys| && b.keys[j] == k && SomeBar(b.cells[j])
  {
    forall k | k in b.keys && HasBar(b, k)
      ensures exists j :: 0 <= j < |b.keys| && b.keys[j] == k && SomeBar(b.cells[j])
    {
      var i, c :| 0 <= i < |b.keys| && 0 <= i < |b.cells| && 0 <= c < |b.cells[i]| &&
                  b.keys[i] == k && b.cells[i][c].Some?;
      assert b.keys[i] == k && SomeBar(b.cells[i]);
    }
    forall j | 0 <= j < |b.keys| && SomeBar(b.cells[j]) ensures HasBar(b, b.keys[j]) {
      var c :| 0 <= c < |b.cells[j]| && b.cells[j][c].Some?;
      assert b.keys[j] == b.keys[j] && b.cells[j][c].Some?;
    }
  }

  // ---- No look-ahead ----

  /** The bar of a symbol at a minute of a day. */
  ghost function BarOf(b: Bars, key: Symbol, minute: int): Option<Bar>
    requires Shaped(b)
  {
    var i := Column(b.keys, key);
    if i < |b.keys| then CellAt(b, i, minute) else None
  }

  /** Two blocks agree on every bar that has closed by a moment, and on every rejection known by then. */
  ghost predicate AgreeUntil(a: Bars, b: Bars, asOf: int)
    requires Shaped(a) && Shaped(b)
  {
    && (forall key, minute :: minute + BAR_SECONDS <= asOf ==> BarOf(a, key, minute) == BarOf(b, key, minute))
    && KnownRejections(a.rejected, asOf) == KnownRejections(b.rejected, asOf)
  }

  /** Equity rows are named by their own symbols. */
  ghost predicate SelfNamed(b: Bars) { b.names == b.keys }

  lemma KeyColumn(b: Bars, i: nat)
    requires Shaped(b) && i < |b.keys|
    ensures Column(b.keys, b.keys[i]) == i
  {
    ColumnOfMinute(b.keys, i);
  }

  lemma AlignedRow(b: Bars, grid: seq<int>, asOf: int, key: Symbol)
    requires Shaped(b)
    ensures RowOf(Aligned(b, grid, asOf), key) == seq(|grid|, c requires 0 <= c < |grid| => BarOf(b, key, grid[c]))
  {
    var i, a := Column(b.keys, key), Aligned(b, grid, asOf);
    var row := seq(|grid|, c requires 0 <= c < |grid| => BarOf(b, key, grid[c]));
    if i < |b.keys| {
      assert a.cells[i] == RowOn(b, i, grid);
      assert RowOf(a, key) == row;
    } else {
      assert RowOf(a, key) == row;
    }
  }

  /** A symbol has a bar in the frame exactly when it has one at a minute of the grid. */
  lemma AlignedHasBar(b: Bars, grid: seq<int>, asOf: int, key: Symbol)
    requires Shaped(b)
    ensures key in b.keys && HasBar(Aligned(b, grid, asOf), key) <==>
            exists c :: 0 <= c < |grid| && BarOf(b, key, grid[c]).Some?
  {
    var a := Aligned(b, grid, asOf);
    if key in b.keys && HasBar(a, key) {
      var i, c :| 0 <= i < |a.keys| && 0 <= i < |a.cells| && 0 <= c < |a.cells[i]| &&
                  a.keys[i] == key && a.cells[i][c].Some?;
      KeyColumn(b, i);
      assert a.cells[i] == RowOn(b, i, grid);
      assert BarOf(b, key, grid[c]).Some?;
    }
    if exists c :: 0 <= c < |grid| && BarOf(b, key, grid[c]).Some? {
      var c :| 0 <= c < |grid| && BarOf(b, key, grid[c]).Some?;
      var i := Column(b.keys, key);
      assert a.cells[i] == RowOn(b, i, grid);
      assert a.keys[i] == key && a.cells[i][c].Some?;
    }
  }

  lemma SameUniverse(a: Bars, b: Bars, session: int, asOf: int, universe: set<Symbol>)
    requires Shaped(a) && Shaped(b) && AgreeUntil(a, b, asOf)
    ensures var grid := Grid(session, asOf);
            UniverseKeys(Aligned(a, grid, asOf), universe) == UniverseKeys(Aligned(b, grid, asOf), universe)
  {
    var grid := Grid(session, asOf);
    GridClosed(session, asOf);
    var fa, fb := Aligned(a, grid, asOf), Aligned(b, grid, asOf);
    forall key ensures key in UniverseKeys(fa, universe) <==> key in UniverseKeys(fb, universe) {
      AlignedHasBar(a, grid, asOf, key);
      AlignedHasBar(b, grid, asOf, key);
      assert forall c :: 0 <= c < |grid| ==> BarOf(a, key, grid[c]) == BarOf(b, key, grid[c]);
    }
  }

  /**
   * No look-ahead for equities: days that agree on what had closed by a moment give the same
   * equity block at that moment, even if one has symbols that first trade later.
   */
  lemma EquityHasNoLookAhead(d1: Day, d2: Day, asOf: int, universe: set<Symbol>)
    requires Shaped(d1.equity) && Shaped(d2.equity) && SelfNamed(d1.equity) && SelfNamed(d2.equity)
    requires d1.session == d2.session && AgreeUntil(d1.equity, d2.equity, asOf)
    ensures var grid := Grid(d1.session, asOf);
            Restricted(Aligned(d1.equity, grid, asOf), universe) == Restricted(Aligned(d2.equity, grid, asOf), universe)
  {
    var grid := Grid(d1.session, asOf);
    var a, b := Aligned(d1.equity, grid, asOf), Aligned(d2.equity, grid, asOf);
    SameUniverse(d1.equity, d2.equity, d1.session, asOf, universe);
    GridClosed(d1.session, asOf);
    var keys := SortedKeys(UniverseKeys(a, universe));
    forall key ensures RowOf(a, key) == RowOf(b, key) && NameOf(a, key) == NameOf(b, key) {
      AlignedRow(d1.equity, grid, asOf, key);
      AlignedRow(d2.equity, grid, asOf, key);
      assert forall c :: 0 <= c < |grid| ==> BarOf(d1.equity, key, grid[c]) == BarOf(d2.equity, key, grid[c]);
    }
    assert Restricted(a, universe).cells == Restricted(b, universe).cells;
    assert Restricted(a, universe).names == Restricted(b, universe).names;
    assert Restricted(a, universe).rejected == Restricted(b, universe).rejected;
  }

  lemma AgreeingBlocks(a: Bars, b: Bars, session: int, asOf: int)
    requires Shaped(a) && Shaped(b) && AgreeUntil(a, b, asOf)
    ensures var grid := Grid(session, asOf);
            Aligned(a, grid, asOf) == Aligned(b, grid, asOf) <==> a.keys == b.keys && a.names == b.names
  {
    var grid := Grid(session, asOf);
    GridClosed(session, asOf);
    var fa, fb := Aligned(a, grid, asOf), Aligned(b, grid, asOf);
    if a.keys == b.keys && a.names == b.names {
      forall i | 0 <= i < |a.keys| ensures RowOn(a, i, grid) == RowOn(b, i, grid) {
        KeyColumn(a, i);
        KeyColumn(b, i);
        forall c | 0 <= c < |grid| ensures CellAt(a, i, grid[c]) == CellAt(b, i, grid[c]) {
          assert BarOf(a, a.keys[i], grid[c]) == BarOf(b, a.keys[i], grid[c]);
        }
      }
      assert fa.cells == fb.cells;
    }
  }

  /** What a decision rests on besides bars and rejections. */
  ghost predicate SameSetting(d1: Day, d2: Day) {
    d1.session == d2.session && d1.reference == d2.reference && d1.synthetic == d2.synthetic
  }

  /** A day without any index row has no index block at all. */
  function IndexBars(d: Day): Bars { if d.indices.Some? then d.indices.value else Bars([], [], [], [], map[]) }

  /** Both days list the same indices: neither has a block, or both have one of the same names. */
  ghost predicate SameIndexList(d1: Day, d2: Day) {
    (d1.indices.Some? <==> d2.indices.Some?) &&
    IndexBars(d1).keys == IndexBars(d2).keys && IndexBars(d1).names == IndexBars(d2).names
  }

  /**
   * The whole frame. `universe_frame` restricts only the equity block, so two days that agree on
   * all closed bars give the same decision frame exactly when they list the same indices.
   */
  lemma FrameHasNoLookAhead(d1: Day, d2: Day, asOf: int, universe: set<Symbol>)
    requires Shaped(d1.equity) && Shaped(d2.equity) && SelfNamed(d1.equity) && SelfNamed(d2.equity)
    requires Shaped(IndexBars(d1)) && Shaped(IndexBars(d2))
    requires SameSetting(d1, d2) && AgreeUntil(d1.equity, d2.equity, asOf)
    requires AgreeUntil(IndexBars(d1), IndexBars(d2), asOf)
    ensures UniverseFrame(FrameAt(d1, asOf), universe) == UniverseFrame(FrameAt(d2, asOf), universe) <==>
            SameIndexList(d1, d2)
  {
    EquityHasNoLookAhead(d1, d2, asOf, universe);
    if d1.indices.Some? && d2.indices.Some? {
      AgreeingBlocks(d1.indices.value, d2.indices.value, d1.session, asOf);
    }
    hide Restricted, Aligned;
  }

  /** The first index to trade at all already shows before its first bar: the frame gains an index block. */
  lemma FirstIndexShows(d: Day, late: Symbol, minute: int, bar: Bar, asOf: int, universe: set<Symbol>)
    requires Shaped(d.equity) && SelfNamed(d.equity) && minute + BAR_SECONDS > asOf
    requires d.indices == None
    ensures var d' := d.(indices := Some(Bars([late], [late], [minute], [[Some(bar)]], map[])));
            AgreeUntil(IndexBars(d), IndexBars(d'), asOf) &&
            UniverseFrame(FrameAt(d, asOf), universe) != UniverseFrame(FrameAt(d', asOf), universe)
  {
    var d' := d.(indices := Some(Bars([late], [late], [minute], [[Some(bar)]], map[])));
    FrameHasNoLookAhead(d, d', asOf, universe);
  }

  /** And so does one more index on a day that has others: here beside one that has traded before. */
  lemma LateIndexShows(d: Day, early: Symbol, first: int, one: Bar, late: Symbol, minute: int, bar: Bar,
                       asOf: int, universe: set<Symbol>)
    requires Shaped(d.equity) && SelfNamed(d.equity)
    requires early < late && first < minute && minute + BAR_SECONDS > asOf
    requires d.indices == Some(Bars([early], [early], [first], [[Some(one)]], map[]))
    ensures var d' := d.(indices := Some(Bars([early, late], [early, late], [first, minute],
                                              [[Some(one), None], [None, Some(bar)]], map[])));
            AgreeUntil(IndexBars(d), IndexBars(d'), asOf) &&
            UniverseFrame(FrameAt(d, asOf), universe) != UniverseFrame(FrameAt(d', asOf), universe)
  {
    var a := IndexBars(d);
    var b := Bars([early, late], [early, late], [first, minute], [[Some(one), None], [None, Some(bar)]], map[]);
    assert a.minutes[1..] == [] && b.minutes[1..] == [minute];
    forall key, m | m + BAR_SECONDS <= asOf ensures BarOf(a, key, m) == BarOf(b, key, m) {
      assert Column(a.keys, key) == if key == early then 0 else 1;
      assert Column(b.keys, key) == if key == early then 0 else if key == late then 1 else 2;
      assert Column(a.minutes, m) == if m == first then 0 else 1;
      assert Column(b.minutes, m) == if m == first then 0 else if m == minute then 1 else 2;
    }
    FrameHasNoLookAhead(d, d.(indices := Some(b)), asOf, universe);
  }

  /**
   * The frame at a moment is a column prefix of the frame at every later one: the same rows, the
   * grid and every row extended at the end only, and no known rejection forgotten.
   */
  lemma FramesGrow(b: Bars, session: int, asOf: int, later: int)
    requires Shaped(b) && asOf <= later
    ensures var f, g := Aligned(b, Grid(session, asOf), asOf), Aligned(b, Grid(session, later), later);
            f.keys == g.keys && f.minutes <= g.minutes &&
            (forall i :: 0 <= i < |f.keys| ==> f.cells[i] <= g.cells[i]) &&
            forall k :: k in f.rejected ==> k in g.rejected && forall r :: r in f.rejected[k] ==> r in g.rejected[k]
  {
    var f, g := Aligned(b, Grid(session, asOf), asOf), Aligned(b, Grid(session, later), later);
    GridGrows(session, asOf, later);
    forall i | 0 <= i < |f.keys| ensures f.cells[i] <= g.cells[i] {
      assert f.cells[i] == RowOn(b, i, f.minutes) && g.cells[i] == RowOn(b, i, g.minutes);
      assert forall c :: 0 <= c < |f.minutes| ==> f.minutes[c] == g.minutes[c];
    }
    forall k | k in f.rejected ensures k in g.rejected && forall r :: r in f.rejected[k] ==> r in g.rejected[k] {
      KnownGrows(b.rejected[k], asOf, later);
      var first := f.rejected[k][0];
      assert first in f.rejected[k];
    }
  }

  lemma {:induction false} KnownGrows(rows: seq<Rejection>, asOf: int, later: int)
    requires asOf <= later
    ensures forall r :: r in KnownOf(rows, asOf) ==> r in KnownOf(rows, later)
  {
    if rows != [] { KnownGrows(rows[..|rows| - 1], asOf, later); }
  }
}
