/** What a frame shows. */
module FrameMeaning {
  // Cell by cell, row by row and rejection by rejection, in terms of the day's own tables.

  import opened Basics
  import opened OrderedRows
  import opened SessionClock
  import opened PointInTime

  /** The day's table has this bar in row `i` at a minute. */
  ghost predicate HasAt(b: Bars, i: nat, minute: int, bar: Bar) {
    i < |b.cells| && exists j :: 0 <= j < |b.minutes| && j < |b.cells[i]| &&
                                 b.minutes[j] == minute && b.cells[i][j] == Some(bar)
  }

  lemma CellIsBar(b: Bars, i: nat, minute: int, bar: Bar)
    requires Shaped(b) && i < |b.cells|
    ensures CellAt(b, i, minute) == Some(bar) <==> HasAt(b, i, minute, bar)
  {
    if HasAt(b, i, minute, bar) {
      var j :| 0 <= j < |b.minutes| && b.minutes[j] == minute && b.cells[i][j] == Some(bar);
      ColumnOfMinute(b.minutes, j);
    }
  }

  /**
   * An aligned block has the day's instruments under their names, and at each minute of the grid exactly the
   * bar the day has for the instrument then.
   */
  lemma AlignedShows(b: Bars, grid: seq<int>, asOf: int, i: nat, c: nat, bar: Bar)
    requires Shaped(b) && i < |b.keys| && c < |grid|
    ensures var f := Aligned(b, grid, asOf);
            f.keys == b.keys && f.names == b.names && f.minutes == grid && |f.cells| == |b.keys| &&
            |f.cells[i]| == |grid| && (f.cells[i][c] == Some(bar) <==> HasAt(b, i, grid[c], bar))
  {
    CellIsBar(b, i, grid[c], bar);
    assert Aligned(b, grid, asOf).cells[i] == RowOn(b, i, grid);
  }

  /** The rejection's bar opened sixty seconds ago or earlier. */
  predicate ClosedBy(r: Rejection, asOf: int) { r.epoch.Some? && r.epoch.value + 60 <= asOf }

  /** The rows at some rising positions, namely all of those whose bar has closed. */
  ghost predicate Selects(known: seq<Rejection>, rows: seq<Rejection>, at: seq<int>, asOf: int) {
    |at| == |known| && (forall k :: 0 <= k < |at| ==> 0 <= at[k] < |rows| && rows[at[k]] == known[k]) &&
    (forall j, k :: 0 <= j < k < |at| ==> at[j] < at[k]) &&
    forall k :: 0 <= k < |rows| ==> (k in at <==> ClosedBy(rows[k], asOf))
  }

  lemma SelectMore(known: seq<Rejection>, init: seq<Rejection>, at: seq<int>, last: Rejection, asOf: int)
    requires Selects(known, init, at, asOf)
    ensures ClosedBy(last, asOf) ==> Selects(known + [last], init + [last], at + [|init|], asOf)
    ensures !ClosedBy(last, asOf) ==> Selects(known, init + [last], at, asOf)
  {
    var rows, n := init + [last], |init|;
    assert forall k :: 0 <= k < n ==> rows[k] == init[k];
    assert forall k :: k in at ==> 0 <= k < n;
    if ClosedBy(last, asOf) {
      forall k | 0 <= k < |rows| ensures k in at + [n] <==> ClosedBy(rows[k], asOf) {
        if k < n { assert k in at <==> ClosedBy(init[k], asOf); }
      }
    }
  }

  lemma {:induction false} KnownSelects(rows: seq<Rejection>, asOf: int) returns (at: seq<int>)
    ensures Selects(KnownOf(rows, asOf), rows, at, asOf)
  {
    if rows == [] {
      at := [];
    } else {
      var init, last := rows[..|rows| - 1], rows[|rows| - 1];
      at := KnownSelects(init, asOf);
      SelectMore(KnownOf(init, asOf), init, at, last, asOf);
      assert init + [last] == rows;
      if Known(last, asOf) { at := at + [|init|]; }
      hide Selects;
    }
  }

  /** Every instrument's rejections known by the moment are shown, in their order, and no others. */
  lemma RejectionsShown(b: Bars, grid: seq<int>, asOf: int, key: Symbol)
    requires Shaped(b)
    ensures var f := Aligned(b, grid, asOf);
            (key in f.rejected ==>
              key in b.rejected && exists at :: Selects(f.rejected[key], b.rejected[key], at, asOf)) &&
            (key in f.rejected <==>
              key in b.rejected && exists k :: 0 <= k < |b.rejected[key]| && ClosedBy(b.rejected[key][k], asOf))
  {
    if key in b.rejected {
      var rows := b.rejected[key];
      var at := KnownSelects(rows, asOf);
      if KnownOf(rows, asOf) != [] { assert at[0] in at; }
      if k :| 0 <= k < |rows| && ClosedBy(rows[k], asOf) { assert k in at; }
    }
  }

  /** The symbol is in the universe or has a bar somewhere in the block. */
  ghost predicate Wanted(b: Bars, universe: set<Symbol>, key: Symbol) {
    key in universe ||
    exists i, c :: 0 <= i < |b.keys| && i < |b.cells| && 0 <= c < |b.cells[i]| &&
                   b.keys[i] == key && b.cells[i][c].Some?
  }

  /**
   * The decision universe: exactly the wanted symbols in rising order, each with the row and the name it had,
   * or with an empty row under its own name, and with its rejections.
   */
  lemma RestrictedShows(b: Bars, universe: set<Symbol>, key: Symbol)
    requires Shaped(b)
    ensures var r := Restricted(b, universe);
            r.minutes == b.minutes && |r.names| == |r.cells| == |r.keys| &&
            (forall i, j :: 0 <= i < j < |r.keys| ==> r.keys[i] < r.keys[j]) &&
            (key in r.keys <==> Wanted(b, universe, key)) &&
            (key in r.rejected <==> Wanted(b, universe, key) && key in b.rejected) &&
            (key in r.rejected ==> r.rejected[key] == b.rejected[key])
  {
    SortedKeysExact(UniverseKeys(b, universe));
    if key !in universe && Wanted(b, universe, key) {
      var i, c :| 0 <= i < |b.keys| && i < |b.cells| && 0 <= c < |b.cells[i]| &&
                  b.keys[i] == key && b.cells[i][c].Some?;
      assert HasBar(b, key);
    }
    if key in UniverseKeys(b, universe) && key !in universe {
      var i, c :| 0 <= i < |b.keys| && 0 <= i < |b.cells| && 0 <= c < |b.cells[i]| &&
                  b.keys[i] == key && b.cells[i][c].Some?;
    }
  }

  ghost predicate NoBars(row: seq<Option<Bar>>, n: nat) {
    |row| == n && forall c :: 0 <= c < n ==> row[c] == None
  }

  /** A row of the decision universe. */
  lemma RestrictedRow(b: Bars, universe: set<Symbol>, k: nat)
    requires Shaped(b) && k < |Restricted(b, universe).keys|
    ensures var r := Restricted(b, universe);
            var key := r.keys[k];
            |r.names| == |r.cells| == |r.keys| &&
            (forall i :: 0 <= i < |b.keys| && b.keys[i] == key ==>
               r.cells[k] == b.cells[i] && r.names[k] == b.names[i]) &&
            (key !in b.keys ==> r.names[k] == key && NoBars(r.cells[k], |b.minutes|))
  {
    var r := Restricted(b, universe);
    var key := r.keys[k];
    assert r.cells[k] == RowOf(b, key) && r.names[k] == NameOf(b, key);
    forall i | 0 <= i < |b.keys| && b.keys[i] == key ensures r.cells[k] == b.cells[i] && r.names[k] == b.names[i] {
      KeyColumn(b, i);
    }
    if key !in b.keys { assert Column(b.keys, key) == |b.keys|; }
  }

  /** Decision frames that are equal come from days of the same date, the same reference and the same origin. */
  lemma FrameShowsSetting(d1: Day, d2: Day, asOf: int, universe: set<Symbol>)
    requires Shaped(d1.equity) && Shaped(d2.equity)
    requires Shaped(IndexBars(d1)) && Shaped(IndexBars(d2))
    requires UniverseFrame(FrameAt(d1, asOf), universe) == UniverseFrame(FrameAt(d2, asOf), universe)
    ensures SameSetting(d1, d2)
  {
    hide Restricted, Aligned, Grid;
    var f1, f2 := UniverseFrame(FrameAt(d1, asOf), universe), UniverseFrame(FrameAt(d2, asOf), universe);
    assert f1.session == d1.session && f1.reference == d1.reference && f1.synthetic == d1.synthetic;
    assert f2.session == d2.session && f2.reference == d2.reference && f2.synthetic == d2.synthetic;
  }
}
