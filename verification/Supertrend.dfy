/** The Supertrend line. */
module Supertrend {
  import opened Basics
  import opened Indicators

  datatype Bar = Bar(high: real, low: real, close: real)

  /** The true range of a bar: the first has no close before it. */
  function TrueRange(bars: seq<Bar>, t: nat): real
    requires t < |bars|
  {
    var spread := bars[t].high - bars[t].low;
    if t == 0 then spread
    else
      var before := bars[t - 1].close;
      MaxReal(MaxReal(spread, AbsReal(bars[t].high - before)), AbsReal(bars[t].low - before))
  }

  function TrueRanges(bars: seq<Bar>): (x: Series)
    ensures |x| == |bars|
  {
    seq(|bars|, t requires 0 <= t < |bars| => Some(TrueRange(bars, t)))
  }

  /** The average true range, known from the p-th bar on. */
  ghost function Atr(bars: seq<Bar>, p: nat, t: nat): real
    requires 1 <= p && p - 1 <= t < |bars|
  {
    AtrKnown(bars, p, t);
    Average(Wilder, TrueRanges(bars), p, t).value
  }

  lemma AtrKnown(bars: seq<Bar>, p: nat, t: nat)
    requires 1 <= p && t < |bars|
    ensures Average(Wilder, TrueRanges(bars), p, t).Some? <==> t >= p - 1
  {
    DefinedExactlyWhen(Wilder, TrueRanges(bars), p, t);
  }

  function Middle(b: Bar): real { (b.high + b.low) / 2.0 }

  ghost function Upper(bars: seq<Bar>, p: nat, mult: real, t: nat): real
    requires 1 <= p && p - 1 <= t < |bars|
  {
    Middle(bars[t]) + mult * Atr(bars, p, t)
  }

  ghost function Lower(bars: seq<Bar>, p: nat, mult: real, t: nat): real
    requires 1 <= p && p - 1 <= t < |bars|
  {
    Middle(bars[t]) - mult * Atr(bars, p, t)
  }

  /** The final bands and the direction at a bar. */
  datatype Trend = Trend(upper: real, lower: real, up: bool) {
    function Line(): real { if up then lower else upper }
  }

  /** One bar: each band moves only inward, unless the close before had left it. */
  function Step(was: Trend, upper: real, lower: real, before: real, close: real): Trend {
    var fu := if upper < was.upper || before > was.upper then upper else was.upper;
    var fl := if lower > was.lower || before < was.lower then lower else was.lower;
    Trend(fu, fl, if was.up then !(close < fl) else close > fu)
  }

  ghost function TrendAt(bars: seq<Bar>, p: nat, mult: real, t: nat): Trend
    requires 1 <= p && p - 1 <= t < |bars|
    decreases t
  {
    if t == p - 1 then Trend(Upper(bars, p, mult, t), Lower(bars, p, mult, t), true)
    else
      Step(TrendAt(bars, p, mult, t - 1), Upper(bars, p, mult, t), Lower(bars, p, mult, t),
           bars[t - 1].close, bars[t].close)
  }

  /** The line and the direction of every bar from the p-th on, nothing before. */
  ghost predicate Traced(trends: seq<Option<Trend>>, bars: seq<Bar>, p: nat, mult: real, end: nat)
    requires 1 <= p
  {
    |trends| == |bars| && end <= |bars| &&
    (forall t :: 0 <= t < |bars| && (t < p - 1 || t >= end) ==> trends[t] == None) &&
    forall t :: p - 1 <= t < end ==> trends[t] == Some(TrendAt(bars, p, mult, t))
  }

  method Bands(bars: seq<Bar>, p: nat, mult: real, atr: Series, t: nat) returns (upper: real, lower: real)
    requires 1 <= p && p - 1 <= t < |bars| && Filled(atr, Wilder, TrueRanges(bars), p, |bars|)
    ensures upper == Upper(bars, p, mult, t) && lower == Lower(bars, p, mult, t)
  {
    AtrKnown(bars, p, t);
    var hl2 := (bars[t].high + bars[t].low) / 2.0;
    upper, lower := hl2 + mult * atr[t].value, hl2 - mult * atr[t].value;
  }

  /** `supertrend`. */
  method ComputeSupertrend(bars: seq<Bar>, p: nat, mult: real) returns (trends: seq<Option<Trend>>)
    requires 1 <= p
    ensures Traced(trends, bars, p, mult, |bars|)
  {
    hide TrueRanges, Upper, Lower, Atr, Step;
    var atr := WilderRma(TrueRanges(bars), p);
    trends := seq(|bars|, _ => None);
    if |bars| < p { return; }
    var upper, lower := Bands(bars, p, mult, atr, p - 1);
    trends := trends[p - 1 := Some(Trend(upper, lower, true))];
    for t := p to |bars|
      invariant Traced(trends, bars, p, mult, t)
    {
      upper, lower := Bands(bars, p, mult, atr, t);
      trends := trends[t := Some(Step(trends[t - 1].value, upper, lower, bars[t - 1].close, bars[t].close))];
    }
  }

  /** Through three bars up in a row the line never falls. */
  lemma LineNeverFalls(bars: seq<Bar>, p: nat, mult: real, t: nat)
    requires 1 <= p && p + 1 <= t < |bars|
    ensures var a, b, c := TrendAt(bars, p, mult, t - 2), TrendAt(bars, p, mult, t - 1), TrendAt(bars, p, mult, t);
            a.up && b.up && c.up ==> b.Line() <= c.Line()
  {
    hide Upper, Lower, Atr;
  }

  /** Through three bars down in a row it never rises. */
  lemma LineNeverRises(bars: seq<Bar>, p: nat, mult: real, t: nat)
    requires 1 <= p && p + 1 <= t < |bars|
    ensures var a, b, c := TrendAt(bars, p, mult, t - 2), TrendAt(bars, p, mult, t - 1), TrendAt(bars, p, mult, t);
            !a.up && !b.up && !c.up ==> c.Line() <= b.Line()
  {
    hide Upper, Lower, Atr;
  }

  /** Up from bar `a` to bar `b`. */
  ghost predicate UpSpell(bars: seq<Bar>, p: nat, mult: real, a: nat, b: nat)
    requires 1 <= p && p - 1 <= a <= b < |bars|
  {
    forall t :: a <= t <= b ==> TrendAt(bars, p, mult, t).up
  }

  ghost predicate DownSpell(bars: seq<Bar>, p: nat, mult: real, a: nat, b: nat)
    requires 1 <= p && p - 1 <= a <= b < |bars|
  {
    forall t :: a <= t <= b ==> !TrendAt(bars, p, mult, t).up
  }

  lemma CloseAboveLine(bars: seq<Bar>, p: nat, mult: real, t: nat)
    requires 1 <= p && p <= t < |bars|
    ensures var was, now := TrendAt(bars, p, mult, t - 1), TrendAt(bars, p, mult, t);
            (was.up && now.up ==> now.Line() <= bars[t].close) && (!was.up && !now.up ==> bars[t].close <= now.Line())
  {
    hide Upper, Lower, Atr;
  }

  /**
   * Over a whole spell up, from its second bar on, the line never falls and every close holds every
   * level the line has had in it.
   */
  lemma {:induction false} UpSpellRatchets(bars: seq<Bar>, p: nat, mult: real, a: nat, i: nat, j: nat)
    requires 1 <= p && p - 1 <= a < i <= j < |bars| && UpSpell(bars, p, mult, a, j)
    ensures TrendAt(bars, p, mult, i).Line() <= TrendAt(bars, p, mult, j).Line() <= bars[j].close
    decreases j
  {
    hide TrendAt;
    assert TrendAt(bars, p, mult, j).up && TrendAt(bars, p, mult, j - 1).up;
    CloseAboveLine(bars, p, mult, j);
    if i < j {
      UpSpellRatchets(bars, p, mult, a, i, j - 1);
      LineNeverFalls(bars, p, mult, j);
      assert TrendAt(bars, p, mult, j - 2).up;
    }
  }

  /** Over a whole spell down, from its second bar on, the line never rises and no close exceeds any level of it. */
  lemma {:induction false} DownSpellRatchets(bars: seq<Bar>, p: nat, mult: real, a: nat, i: nat, j: nat)
    requires 1 <= p && p - 1 <= a < i <= j < |bars| && DownSpell(bars, p, mult, a, j)
    ensures bars[j].close <= TrendAt(bars, p, mult, j).Line() <= TrendAt(bars, p, mult, i).Line()
    decreases j
  {
    hide TrendAt;
    assert !TrendAt(bars, p, mult, j).up && !TrendAt(bars, p, mult, j - 1).up;
    CloseAboveLine(bars, p, mult, j);
    if i < j {
      DownSpellRatchets(bars, p, mult, a, i, j - 1);
      LineNeverRises(bars, p, mult, j);
      assert !TrendAt(bars, p, mult, j - 2).up;
    }
  }

  // ---- The first bar of a spell ----

  const Flat := Bar(100.0, 100.0, 100.0)
  const Crash := Bar(100.0, 0.0, 0.0)
  const Floor := Bar(0.0, 0.0, 0.0)

  /** Nine flat bars, a crash, and a bar on the floor. */
  function CrashDay(): seq<Bar> { seq(9, _ => Flat) + [Crash, Floor] }

  lemma {:induction false} FlatSum(n: nat)
    requires n <= 9
    ensures Sum(TrueRanges(CrashDay()), n) == 0.0
  {
    if n > 0 {
      FlatSum(n - 1);
      assert CrashDay()[n - 1] == Flat && TrueRange(CrashDay(), n - 1) == 0.0;
    }
  }

  lemma CrashRanges()
    ensures Atr(CrashDay(), 10, 9) == 10.0 && Atr(CrashDay(), 10, 10) == 9.0
  {
    var bars := CrashDay();
    var x := TrueRanges(bars);
    FlatSum(9);
    assert bars[9] == Crash && bars[10] == Floor && bars[8] == Flat;
    assert TrueRange(bars, 9) == 100.0 && TrueRange(bars, 10) == 0.0;
    assert Sum(x, 10) == Sum(x, 9) + 100.0;
    assert Defined(x, 10);
    assert Average(Wilder, x, 10, 9) == Some(10.0);
    assert Mix(Weight(Wilder, 10), 0.0, 10.0) == 9.0;
    assert Average(Wilder, x, 10, 10) == Some(9.0);
  }

  /** From the first bar of a spell to its second the line can fall: here from 20 to -27, both bars up. */
  lemma LineFallsFromFirstBar()
    ensures var first, second := TrendAt(CrashDay(), 10, 3.0, 9), TrendAt(CrashDay(), 10, 3.0, 10);
            first.up && second.up && first.Line() == 20.0 && second.Line() == -27.0
  {
    var bars := CrashDay();
    CrashRanges();
    assert bars[9] == Crash && bars[10] == Floor;
    hide Atr;
    assert Lower(bars, 10, 3.0, 9) == 20.0 && Lower(bars, 10, 3.0, 10) == -27.0;
  }

  /** Bars to come change nothing. */
  lemma {:induction false} TrendIsCausal(bars: seq<Bar>, more: seq<Bar>, p: nat, mult: real, t: nat)
    requires 1 <= p && p - 1 <= t < |bars|
    ensures TrendAt(bars + more, p, mult, t) == TrendAt(bars, p, mult, t)
  {
    BandsAreCausal(bars, more, p, mult, t);
    if t > p - 1 { TrendIsCausal(bars, more, p, mult, t - 1); }
  }

  lemma BandsAreCausal(bars: seq<Bar>, more: seq<Bar>, p: nat, mult: real, t: nat)
    requires 1 <= p && p - 1 <= t < |bars|
    ensures Upper(bars + more, p, mult, t) == Upper(bars, p, mult, t)
    ensures Lower(bars + more, p, mult, t) == Lower(bars, p, mult, t)
  {
    hide Average;
    var x, longer := TrueRanges(bars), TrueRanges(bars + more);
    assert longer == x + longer[|bars|..];
    AverageIsCausal(Wilder, x, longer[|bars|..], p, t);
  }

  // ---- In terms of the bars ----

  /** The true range is the greatest of the bar's spread and the distances of its ends from the close before. */
  lemma RangeCovers(bars: seq<Bar>, t: nat)
    requires t < |bars|
    ensures var r, b := TrueRange(bars, t), bars[t];
            if t == 0 then r == b.high - b.low
            else
              var c := bars[t - 1].close;
              r >= b.high - b.low && r >= b.high - c && r >= c - b.high && r >= b.low - c && r >= c - b.low &&
              r in {b.high - b.low, b.high - c, c - b.high, b.low - c, c - b.low}
  {
  }

  lemma FirstAverage(bars: seq<Bar>, p: nat)
    requires 1 <= p <= |bars|
    ensures Atr(bars, p, p - 1) == Sum(TrueRanges(bars), p) / p as real
  {
    AtrKnown(bars, p, p - 1);
    hide Sum, TrueRanges;
  }

  lemma NextAverage(bars: seq<Bar>, p: nat, t: nat)
    requires 1 <= p <= t < |bars|
    ensures Atr(bars, p, t) == Mix(Weight(Wilder, p), TrueRange(bars, t), Atr(bars, p, t - 1))
  {
    hide Mix, Weight;
    AtrKnown(bars, p, t);
    AtrKnown(bars, p, t - 1);
    assert TrueRanges(bars)[t] == Some(TrueRange(bars, t));
  }

  lemma WilderMoves(p: nat, x: real, before: real)
    requires p >= 1
    ensures p as real * (Mix(Weight(Wilder, p), x, before) - before) == x - before
  {
    MixMoves(Wilder, p, x, before);
    hide Mix, Weight;
  }

  /** The average true range starts as the mean of the first ranges and then moves a p-th of the way to each. */
  lemma RangeAverages(bars: seq<Bar>, p: nat, t: nat)
    requires 1 <= p && p - 1 <= t < |bars|
    ensures t == p - 1 ==> p as real * Atr(bars, p, t) == Sum(TrueRanges(bars), p)
    ensures t >= p ==> p as real * (Atr(bars, p, t) - Atr(bars, p, t - 1)) == TrueRange(bars, t) - Atr(bars, p, t - 1)
  {
    hide *;
    if t == p - 1 {
      FirstAverage(bars, p);
      MeanShare(Sum(TrueRanges(bars), p), p);
    } else {
      NextAverage(bars, p, t);
      WilderMoves(p, TrueRange(bars, t), Atr(bars, p, t - 1));
    }
  }

  /**
   * Each bar's bands and direction: the upper band only comes down unless the close before was above it, the
   * lower only goes up unless that was below it, and the direction turns when a close leaves the band it is on.
   */
  lemma TrendByBars(bars: seq<Bar>, p: nat, mult: real, t: nat)
    requires 1 <= p && p - 1 <= t < |bars|
    ensures var now, twice := TrendAt(bars, p, mult, t), bars[t].high + bars[t].low;
            var width := 2.0 * (mult * Atr(bars, p, t));
            if t == p - 1 then now.up && 2.0 * now.upper == twice + width && 2.0 * now.lower == twice - width
            else
              var was, c := TrendAt(bars, p, mult, t - 1), bars[t - 1].close;
              2.0 * now.upper == (if c > was.upper then twice + width else MinReal(twice + width, 2.0 * was.upper)) &&
              2.0 * now.lower == (if c < was.lower then twice - width else MaxReal(twice - width, 2.0 * was.lower)) &&
              (now.up <==> if was.up then now.lower <= bars[t].close else now.upper < bars[t].close)
    ensures var now := TrendAt(bars, p, mult, t); now.Line() == if now.up then now.lower else now.upper
  {
    hide Atr;
    var wide := mult * Atr(bars, p, t);
    assert Upper(bars, p, mult, t) == Middle(bars[t]) + wide && Lower(bars, p, mult, t) == Middle(bars[t]) - wide;
  }
}
