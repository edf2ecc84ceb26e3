/** Quotes grouped by minute. */
module CandleTicks {
  import opened Basics
  import opened OrderedRows
  import opened CandleRules

  function RunQuotes(b: Book, quotes: seq<Quote>): Book {
    if quotes == [] then b else Tick(RunQuotes(b, quotes[..|quotes| - 1]), quotes[|quotes| - 1])
  }

  function Seeded(seed: Option<int>): Book { Book([], None, seed, None) }

  // ---- The reading of a quote stream that the candles must match ----

  type ValidQuote = q: Quote | q.Valid() witness Quote(1.0, 1, 0, 0)

  /** Valid quotes, without those of a minute already left and without immediate repeats of a trade. */
  function Accepted(quotes: seq<Quote>): seq<ValidQuote> {
    if quotes == [] then []
    else
      var a, q := Accepted(quotes[..|quotes| - 1]), quotes[|quotes| - 1];
      if !q.Valid() then a
      else if a != [] && (q.Minute() < a[|a| - 1].Minute() || q.Trade() == a[|a| - 1].Trade()) then a
      else a + [q]
  }

  function InMinute(a: seq<ValidQuote>, minute: int): seq<ValidQuote> {
    if a == [] then []
    else
      var init, q := InMinute(a[..|a| - 1], minute), a[|a| - 1];
      if q.Minute() == minute then init + [q] else init
  }

  function Highest(g: seq<ValidQuote>): real
    requires g != []
  {
    if |g| == 1 then g[0].price else MaxReal(Highest(g[..|g| - 1]), g[|g| - 1].price)
  }

  function Lowest(g: seq<ValidQuote>): real
    requires g != []
  {
    if |g| == 1 then g[0].price else MinReal(Lowest(g[..|g| - 1]), g[|g| - 1].price)
  }

  /** The upward move of cumulative volume that the latest of some quotes brings. */
  function Move(a: seq<ValidQuote>, seed: Option<int>): int
    requires a != []
  {
    var q := a[|a| - 1];
    var previous := if |a| > 1 then a[|a| - 2].volume else if seed.Some? then seed.value else q.volume;
    MaxInt(0, q.volume - previous)
  }

  function MovesIn(a: seq<ValidQuote>, seed: Option<int>, minute: int): int {
    if a == [] then 0
    else MovesIn(a[..|a| - 1], seed, minute) + (if a[|a| - 1].Minute() == minute then Move(a, seed) else 0)
  }

  function AllMoves(a: seq<ValidQuote>, seed: Option<int>): int {
    if a == [] then 0 else AllMoves(a[..|a| - 1], seed) + Move(a, seed)
  }

  /** First, highest, lowest and last price of a minute's quotes, and its share of the volume. */
  function Bar(a: seq<ValidQuote>, seed: Option<int>, minute: int): Candle {
    var g := InMinute(a, minute);
    if g == [] then Candle(Seconds(minute), Seconds(minute), None, None, None, None, 0, Websocket, Some(false))
    else Candle(Seconds(minute), Seconds(minute), Some(g[0].price), Some(Highest(g)), Some(Lowest(g)),
                Some(g[|g| - 1].price), MovesIn(a, seed, minute), Websocket, Some(false))
  }

  function MinutesOf(a: seq<ValidQuote>): seq<int> {
    if a == [] then []
    else
      var d, m := MinutesOf(a[..|a| - 1]), a[|a| - 1].Minute();
      if d != [] && d[|d| - 1] == m then d else d + [m]
  }

  // ---- The groups ----

  ghost predicate RisingMinutes(a: seq<ValidQuote>) {
    forall i, j :: 0 <= i < j < |a| ==> a[i].Minute() <= a[j].Minute()
  }

  lemma {:induction false} AcceptedRises(quotes: seq<Quote>)
    ensures RisingMinutes(Accepted(quotes))
  {
    if quotes != [] { AcceptedRises(quotes[..|quotes| - 1]); }
  }

  ghost predicate WholeRising(d: seq<int>) {
    (forall i, j :: 0 <= i < j < |d| ==> d[i] < d[j]) && forall i :: 0 <= i < |d| ==> d[i] % 60 == 0
  }

  lemma OneMoreMinute(d: seq<int>, m: int)
    requires WholeRising(d) && m % 60 == 0 && (d != [] ==> d[|d| - 1] < m)
    ensures WholeRising(d + [m])
  {
  }

  lemma {:induction false} MinutesRise(a: seq<ValidQuote>)
    requires RisingMinutes(a)
    ensures WholeRising(MinutesOf(a))
    ensures a != [] ==> MinutesOf(a) != [] && MinutesOf(a)[|MinutesOf(a)| - 1] == a[|a| - 1].Minute()
  {
    if a != [] {
      var init, m := a[..|a| - 1], a[|a| - 1].Minute();
      MinutesRise(init);
      MinuteIsWhole(a[|a| - 1]);
      if init != [] { assert init[|init| - 1].Minute() <= m; }
      var d := MinutesOf(init);
      if !(d != [] && d[|d| - 1] == m) { OneMoreMinute(d, m); }
    }
  }

  lemma MinuteIsWhole(q: ValidQuote)
    ensures q.Minute() % 60 == 0
  {
  }

  /** The minutes listed are exactly those some accepted quote falls in. */
  lemma {:induction false} MinutesExact(a: seq<ValidQuote>, m: int)
    requires RisingMinutes(a)
    ensures m in MinutesOf(a) <==> InMinute(a, m) != []
  {
    if a != [] {
      MinutesExact(a[..|a| - 1], m);
      MinutesRise(a[..|a| - 1]);
    }
  }

  lemma BarElsewhere(a: seq<ValidQuote>, q: ValidQuote, seed: Option<int>, minute: int)
    requires q.Minute() != minute
    ensures Bar(a + [q], seed, minute) == Bar(a, seed, minute)
  {
    assert (a + [q])[..|a|] == a;
  }

  lemma BarExtended(a: seq<ValidQuote>, q: ValidQuote, seed: Option<int>)
    requires InMinute(a, q.Minute()) != []
    ensures Bar(a + [q], seed, q.Minute()) == Extend(Bar(a, seed, q.Minute()), q, Move(a + [q], seed))
  {
    assert (a + [q])[..|a|] == a;
    var g := InMinute(a, q.Minute());
    assert InMinute(a + [q], q.Minute()) == g + [q];
    assert (g + [q])[..|g|] == g;
  }

  lemma BarOpened(a: seq<ValidQuote>, q: ValidQuote, seed: Option<int>)
    requires InMinute(a, q.Minute()) == []
    ensures Bar(a + [q], seed, q.Minute()) == NewCandle(q, Move(a + [q], seed))
  {
    assert (a + [q])[..|a|] == a;
    assert InMinute(a + [q], q.Minute()) == [q];
    NoMoves(a, seed, q.Minute());
  }

  lemma {:induction false} NoMoves(a: seq<ValidQuote>, seed: Option<int>, minute: int)
    requires InMinute(a, minute) == []
    ensures MovesIn(a, seed, minute) == 0
  {
    if a != [] {
      assert a[|a| - 1].Minute() != minute;
      NoMoves(a[..|a| - 1], seed, minute);
    }
  }

  // ---- Refinement ----

  /** The book is the reading of the accepted quotes `a`. */
  ghost predicate Reads(b: Book, a: seq<ValidQuote>, seed: Option<int>) {
    if a == [] then b == Seeded(seed)
    else
      var d := MinutesOf(a);
      && |b.completed| == |d| - 1
      && (forall i :: 0 <= i < |b.completed| ==> b.completed[i] == Completed(Bar(a, seed, d[i])))
      && b.current == Some(Bar(a, seed, d[|d| - 1]))
      && b.volume == Some(a[|a| - 1].volume)
      && b.lastTrade == Some(a[|a| - 1].Trade())
  }

  lemma BarKey(a: seq<ValidQuote>, seed: Option<int>, minute: int)
    ensures MinuteKey(Bar(a, seed, minute)) == MinuteKey(Completed(Bar(a, seed, minute))) == Some(minute / 60)
    ensures EpochOf(Bar(a, seed, minute)) == minute
  {
  }

  lemma WholeMinutes(x: int, y: int)
    requires x < y && x % 60 == 0 && y % 60 == 0
    ensures x / 60 < y / 60
  {
  }

  lemma ReadsStrict(b: Book, a: seq<ValidQuote>, seed: Option<int>)
    requires a != [] && RisingMinutes(a) && Reads(b, a, seed)
    ensures StrictMinutes(b.completed)
    ensures b.completed != [] ==> SortKey(b.completed[|b.completed| - 1]) < SortKey(Completed(b.current.value))
    ensures EpochOf(b.current.value) == a[|a| - 1].Minute()
  {
    MinutesRise(a);
    var d := MinutesOf(a);
    forall i | 0 <= i < |d| ensures SortKey(Completed(Bar(a, seed, d[i]))) == d[i] / 60 { BarKey(a, seed, d[i]); }
    BarKey(a, seed, d[|d| - 1]);
    var rows := b.completed;
    forall i | 0 <= i < |rows| ensures MinuteKey(rows[i]) == Some(d[i] / 60) { BarKey(a, seed, d[i]); }
    forall i, j | 0 <= i < j < |rows| ensures SortKey(rows[i]) < SortKey(rows[j]) { WholeMinutes(d[i], d[j]); }
    if rows != [] { WholeMinutes(d[|d| - 2], d[|d| - 1]); }
  }

  /** A new trade of the open minute extends the open candle. */
  lemma TickExtends(b: Book, q: ValidQuote)
    requires b.current.Some? && q.Minute() == EpochOf(b.current.value) && b.lastTrade != Some(q.Trade())
    ensures Tick(b, q) ==
            Book(b.completed, Some(Extend(b.current.value, q, Delta(b, q))), Some(q.volume), Some(q.Trade()))
  {
    hide Append, Extend;
  }

  /** A trade of a later minute files the open candle and opens the next. */
  lemma TickOpens(b: Book, q: ValidQuote)
    requires b.current.Some? && q.Minute() > EpochOf(b.current.value) && b.lastTrade != Some(q.Trade())
    ensures Tick(b, q) ==
            Book(Append(b.completed, Completed(b.current.value)), Some(NewCandle(q, Delta(b, q))),
                 Some(q.volume), Some(q.Trade()))
  {
    hide Append, NewCandle, Completed;
  }

  /** The upward move of a quote over what the book last saw. */
  function Delta(b: Book, q: ValidQuote): int {
    MaxInt(0, q.volume - if b.volume.Some? then b.volume.value else q.volume)
  }

  lemma MoveFromBook(b: Book, a: seq<ValidQuote>, seed: Option<int>, q: ValidQuote)
    requires Reads(b, a, seed)
    ensures Move(a + [q], seed) == Delta(b, q)
  {
  }

  lemma SameMinute(b: Book, a: seq<ValidQuote>, seed: Option<int>, q: ValidQuote)
    requires a != [] && RisingMinutes(a) && Reads(b, a, seed)
    requires q.Minute() == a[|a| - 1].Minute() && q.Trade() != a[|a| - 1].Trade()
    ensures Reads(Tick(b, q), a + [q], seed)
    ensures Tick(b, q).completed == b.completed
  {
    ReadsStrict(b, a, seed);
    MoveFromBook(b, a, seed, q);
    TickExtends(b, q);
    BarsOfSameMinute(a, seed, q);
    hide Bar, Completed, MinutesOf, RisingMinutes, Tick, Extend, Move, Delta, StrictMinutes;
  }

  /** A quote of the latest minute changes that minute's bar alone. */
  lemma BarsOfSameMinute(a: seq<ValidQuote>, seed: Option<int>, q: ValidQuote)
    requires a != [] && RisingMinutes(a) && q.Minute() == a[|a| - 1].Minute()
    ensures var d := MinutesOf(a);
            MinutesOf(a + [q]) == d && d != [] && d[|d| - 1] == q.Minute() &&
            (forall i :: 0 <= i < |d| - 1 ==> Bar(a + [q], seed, d[i]) == Bar(a, seed, d[i])) &&
            Bar(a + [q], seed, q.Minute()) == Extend(Bar(a, seed, q.Minute()), q, Move(a + [q], seed))
  {
    hide Bar, Extend, Move;
    MinutesRise(a);
    var d := MinutesOf(a);
    assert (a + [q])[..|a|] == a;
    MinutesExact(a, q.Minute());
    BarExtended(a, q, seed);
    forall i | 0 <= i < |d| - 1 ensures Bar(a + [q], seed, d[i]) == Bar(a, seed, d[i]) {
      assert d[i] < d[|d| - 1];
      BarElsewhere(a, q, seed, d[i]);
    }
  }

  /** A quote of a later minute files the open candle at the end and opens the next. */
  lemma Rollover(b: Book, a: seq<ValidQuote>, seed: Option<int>, q: ValidQuote)
    requires a != [] && RisingMinutes(a) && Reads(b, a, seed)
    requires q.Minute() > a[|a| - 1].Minute()
    ensures b.current.Some?
    ensures Tick(b, q) == Book(b.completed + [Completed(b.current.value)], Some(NewCandle(q, Move(a + [q], seed))),
                               Some(q.volume), Some(q.Trade()))
  {
    ReadsStrict(b, a, seed);
    MoveFromBook(b, a, seed, q);
    MinutesRise(a);
    OpenKey(b, a, seed);
    hide Bar, MinutesOf, RisingMinutes, Append, NewCandle, Move, StrictMinutes, Reads, Tick, Delta, Completed;
    AppendAtEnd(b.completed, Completed(b.current.value));
    TickOpens(b, q);
  }

  lemma OpenKey(b: Book, a: seq<ValidQuote>, seed: Option<int>)
    requires a != [] && Reads(b, a, seed) && MinutesOf(a) != []
    ensures b.current.Some? && MinuteKey(Completed(b.current.value)).Some? && Completed(b.current.value).IsComplete()
    ensures b.lastTrade == Some(a[|a| - 1].Trade())
  {
    hide Bar;
    var d := MinutesOf(a);
    BarKey(a, seed, d[|d| - 1]);
  }

  /** A later minute joins the list and disturbs no earlier bar. */
  lemma BarsKept(a: seq<ValidQuote>, seed: Option<int>, q: ValidQuote)
    requires a != [] && RisingMinutes(a) && q.Minute() > a[|a| - 1].Minute()
    ensures MinutesOf(a + [q]) == MinutesOf(a) + [q.Minute()]
    ensures forall i :: 0 <= i < |MinutesOf(a)| ==>
      Bar(a + [q], seed, MinutesOf(a)[i]) == Bar(a, seed, MinutesOf(a)[i])
  {
    hide Bar;
    MinutesRise(a);
    var d := MinutesOf(a);
    assert (a + [q])[..|a|] == a;
    forall i | 0 <= i < |d| ensures Bar(a + [q], seed, d[i]) == Bar(a, seed, d[i]) {
      if i < |d| - 1 { assert d[i] < d[|d| - 1]; }
      BarElsewhere(a, q, seed, d[i]);
    }
  }

  lemma NextMinute(b: Book, a: seq<ValidQuote>, seed: Option<int>, q: ValidQuote)
    requires a != [] && RisingMinutes(a) && Reads(b, a, seed)
    requires q.Minute() > a[|a| - 1].Minute()
    ensures Reads(Tick(b, q), a + [q], seed)
  {
    hide Bar, MinutesOf, Tick, NewCandle, Completed, RisingMinutes, InMinute;
    Rollover(b, a, seed, q);
    BarsKept(a, seed, q);
    assert InMinute(a, q.Minute()) == [] by { LaterMinuteThan(a, q.Minute()); }
    BarOpened(a, q, seed);
  }

  lemma LaterMinuteThan(a: seq<ValidQuote>, minute: int)
    requires a != [] && RisingMinutes(a) && minute > a[|a| - 1].Minute()
    ensures InMinute(a, minute) == []
  {
    LaterMinute(a, minute);
  }

  lemma {:induction false} LaterMinute(a: seq<ValidQuote>, minute: int)
    requires forall i :: 0 <= i < |a| ==> a[i].Minute() < minute
    ensures InMinute(a, minute) == []
  {
    if a != [] {
      assert forall i :: 0 <= i < |a[..|a| - 1]| ==> a[..|a| - 1][i] == a[i];
      LaterMinute(a[..|a| - 1], minute);
    }
  }

  lemma OneMinute(q: ValidQuote)
    ensures MinutesOf([q]) == [q.Minute()]
  {
    assert [q][..0] == [];
  }

  lemma FirstQuote(seed: Option<int>, q: ValidQuote)
    ensures Reads(Tick(Seeded(seed), q), [q], seed)
  {
    var none: seq<ValidQuote> := [];
    assert none + [q] == [q];
    BarOpened(none, q, seed);
    MoveFromBook(Seeded(seed), none, seed, q);
    OneMinute(q);
    hide Bar, MinutesOf, NewCandle, Move, InMinute, Append;
  }

  /**
   * Tick refinement. After any quotes, the completed candles followed by the open one are, minute
   * by minute, the first, highest, lowest and last price of the accepted quotes.
   */
  lemma {:induction false} CandlesGroupQuotes(quotes: seq<Quote>, seed: Option<int>)
    ensures Reads(RunQuotes(Seeded(seed), quotes), Accepted(quotes), seed)
  {
    if quotes != [] {
      var init, q := quotes[..|quotes| - 1], quotes[|quotes| - 1];
      var b, a := RunQuotes(Seeded(seed), init), Accepted(init);
      CandlesGroupQuotes(init, seed);
      AcceptedRises(init);
      if Accepted(quotes) == a {
        QuietTick(b, a, seed, q);
      } else if a == [] {
        FirstQuote(seed, q);
        assert a + [q] == [q];
      } else if q.Minute() > a[|a| - 1].Minute() {
        NextMinute(b, a, seed, q);
      } else {
        SameMinute(b, a, seed, q);
      }
    }
  }

  /** The extremes of a bar are attained and bound every accepted price of its minute. */
  lemma {:induction false} BarExtremes(g: seq<ValidQuote>)
    requires g != []
    ensures exists i :: 0 <= i < |g| && g[i].price == Highest(g)
    ensures exists i :: 0 <= i < |g| && g[i].price == Lowest(g)
    ensures forall i :: 0 <= i < |g| ==> Lowest(g) <= g[i].price <= Highest(g)
  {
    if |g| > 1 {
      var init := g[..|g| - 1];
      BarExtremes(init);
      var h :| 0 <= h < |init| && init[h].price == Highest(init);
      var l :| 0 <= l < |init| && init[l].price == Lowest(init);
      assert g[h].price == Highest(init) && g[l].price == Lowest(init);
      forall i | 0 <= i < |g| ensures Lowest(g) <= g[i].price <= Highest(g) {
        if i < |init| { assert init[i] == g[i]; }
      }
      assert g[if Highest(g) == Highest(init) then h else |g| - 1].price == Highest(g);
      assert g[if Lowest(g) == Lowest(init) then l else |g| - 1].price == Lowest(g);
    } else {
      assert g[0].price == Highest(g) == Lowest(g);
    }
  }

  // ---- Volume ----

  function TotalVolume(rows: seq<Candle>): int {
    if rows == [] then 0 else TotalVolume(rows[..|rows| - 1]) + rows[|rows| - 1].volume
  }

  function BookVolume(b: Book): int {
    TotalVolume(b.completed) + if b.current.Some? then b.current.value.volume else 0
  }

  lemma TotalOfOneMore(rows: seq<Candle>, c: Candle)
    ensures TotalVolume(rows + [c]) == TotalVolume(rows) + c.volume
  {
    assert (rows + [c])[..|rows|] == rows;
  }

  /** A quote adds its upward move to the book's volume. */
  lemma TickVolume(b: Book, a: seq<ValidQuote>, seed: Option<int>, q: ValidQuote)
    requires RisingMinutes(a) && Reads(b, a, seed)
    requires a != [] ==> q.Minute() >= a[|a| - 1].Minute() && q.Trade() != a[|a| - 1].Trade()
    ensures BookVolume(Tick(b, q)) == BookVolume(b) + Move(a + [q], seed)
  {
    MoveFromBook(b, a, seed, q);
    if a != [] {
      ReadsStrict(b, a, seed);
      hide Append, Bar, MinutesOf, TotalVolume, RisingMinutes, Move, Tick, StrictMinutes, Delta;
      if q.Minute() > a[|a| - 1].Minute() {
        Rollover(b, a, seed, q);
        TotalOfOneMore(b.completed, Completed(b.current.value));
      } else {
        TickExtends(b, q);
      }
    }
  }

  /** The candles' volumes add up to the upward moves of cumulative volume since the seed. */
  lemma {:induction false} VolumeIsMoves(quotes: seq<Quote>, seed: Option<int>)
    ensures BookVolume(RunQuotes(Seeded(seed), quotes)) == AllMoves(Accepted(quotes), seed)
  {
    if quotes != [] {
      var init, q := quotes[..|quotes| - 1], quotes[|quotes| - 1];
      var b, a := RunQuotes(Seeded(seed), init), Accepted(init);
      VolumeIsMoves(init, seed);
      CandlesGroupQuotes(init, seed);
      AcceptedRises(init);
      if Accepted(quotes) == a {
        QuietTick(b, a, seed, q);
      } else {
        assert (a + [q])[..|a|] == a;
        TickVolume(b, a, seed, q);
      }
    }
  }

  /** A quote that is not accepted leaves the candles as they are. */
  lemma QuietTick(b: Book, a: seq<ValidQuote>, seed: Option<int>, q: Quote)
    requires RisingMinutes(a) && Reads(b, a, seed)
    requires !q.Valid() ||
             (a != [] && (q.Minute() < a[|a| - 1].Minute() || q.Trade() == a[|a| - 1].Trade()))
    ensures Tick(b, q) == b
  {
    if q.Valid() { ReadsStrict(b, a, seed); }
  }

  /** When cumulative volume never falls, that is simply the last reading minus the seed. */
  lemma {:induction false} MovesTelescope(a: seq<ValidQuote>, seed: Option<int>)
    requires a != []
    requires forall i, j :: 0 <= i <= j < |a| ==> a[i].volume <= a[j].volume
    requires seed.Some? ==> seed.value <= a[0].volume
    ensures AllMoves(a, seed) == a[|a| - 1].volume - (if seed.Some? then seed.value else a[0].volume)
  {
    if |a| > 1 {
      var init := a[..|a| - 1];
      assert a[|a| - 2].volume <= a[|a| - 1].volume;
      MovesTelescope(init, seed);
    }
  }
}
