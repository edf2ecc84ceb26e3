/** Max pain of a chain. */
module OptionChain {
  import opened Basics

  /** One side of a chain row; a quantity that is not a number counts as 0. */
  datatype Contract = Contract(oi: Option<real>)

  datatype Row = Row(strike: Option<real>, ce: Option<Contract>, pe: Option<Contract>)

  datatype Side = Call | Put

  function ContractOf(row: Row, side: Side): Option<Contract> {
    if row.strike.None? then None else match side case Call => row.ce case Put => row.pe
  }

  function OiOf(c: Contract): real { if c.oi.Some? then c.oi.value else 0.0 }

  function Get(m: map<real, real>, k: real): real { if k in m then m[k] else 0.0 }

  /** Open interest of one side by strike, over the rows of a chain. */
  function OiByStrike(rows: seq<Row>, side: Side): map<real, real> {
    if rows == [] then map[]
    else
      var before, row := OiByStrike(rows[..|rows| - 1], side), rows[|rows| - 1];
      var c := ContractOf(row, side);
      if c.None? then before else before[row.strike.value := Get(before, row.strike.value) + OiOf(c.value)]
  }

  /** Open interest of one side over the whole chain. */
  function TotalOi(rows: seq<Row>, side: Side): real {
    if rows == [] then 0.0
    else
      var c := ContractOf(rows[|rows| - 1], side);
      TotalOi(rows[..|rows| - 1], side) + (if c.None? then 0.0 else OiOf(c.value))
  }

  ghost predicate Ascending(s: seq<real>) { forall i, j :: 0 <= i < j < |s| ==> s[i] < s[j] }

  function SumOver(strikes: seq<real>, m: map<real, real>): real {
    if strikes == [] then 0.0 else SumOver(strikes[1..], m) + Get(m, strikes[0])
  }

  /** What the calls and puts of one strike pay at a settlement price. */
  function Pay(call: real, put: real, strike: real, settle: real): real {
    call * MaxReal(settle - strike, 0.0) + put * MaxReal(strike - settle, 0.0)
  }

  /** What every open contract pays at a settlement price: `_payout`. */
  function Payout(strikes: seq<real>, call: map<real, real>, put: map<real, real>, settle: real): real {
    if strikes == [] then 0.0
    else Payout(strikes[1..], call, put, settle) + Pay(Get(call, strikes[0]), Get(put, strikes[0]), strikes[0], settle)
  }

  // ---- In terms of the rows ----

  /** The calls of a row that has a strike. */
  function CallsOf(row: Row): real {
    if row.strike.Some? && row.ce.Some? && row.ce.value.oi.Some? then row.ce.value.oi.value else 0.0
  }

  /** The puts of a row that has a strike. */
  function PutsOf(row: Row): real {
    if row.strike.Some? && row.pe.Some? && row.pe.value.oi.Some? then row.pe.value.oi.value else 0.0
  }

  function Calls(rows: seq<Row>): real {
    if rows == [] then 0.0 else Calls(rows[..|rows| - 1]) + CallsOf(rows[|rows| - 1])
  }

  function Puts(rows: seq<Row>): real {
    if rows == [] then 0.0 else Puts(rows[..|rows| - 1]) + PutsOf(rows[|rows| - 1])
  }

  /** The rows of one strike. */
  function AtStrike(rows: seq<Row>, strike: real): seq<Row> {
    if rows == [] then []
    else
      AtStrike(rows[..|rows| - 1], strike) +
      if rows[|rows| - 1].strike == Some(strike) then [rows[|rows| - 1]] else []
  }

  /** What a row's calls and puts pay at a settlement price. */
  function PaidBy(row: Row, settle: real): real {
    if row.strike.None? then 0.0
    else if settle > row.strike.value then CallsOf(row) * (settle - row.strike.value)
    else PutsOf(row) * (row.strike.value - settle)
  }

  function Paid(rows: seq<Row>, settle: real): real {
    if rows == [] then 0.0 else Paid(rows[..|rows| - 1], settle) + PaidBy(rows[|rows| - 1], settle)
  }

  /** Some row lists a call or a put at the strike. */
  predicate ListsStrike(row: Row, strike: real) { row.strike == Some(strike) && (row.ce.Some? || row.pe.Some?) }

  ghost predicate Listed(rows: seq<Row>, strike: real) { exists i :: 0 <= i < |rows| && ListsStrike(rows[i], strike) }

  /** Totals are the calls and the puts of all rows. */
  lemma {:induction false} TotalsBySide(rows: seq<Row>)
    ensures TotalOi(rows, Call) == Calls(rows) && TotalOi(rows, Put) == Puts(rows)
  {
    if rows != [] { TotalsBySide(rows[..|rows| - 1]); }
  }

  /** At each strike stand the calls and the puts of exactly the rows of that strike. */
  lemma {:induction false} StrikesBySide(rows: seq<Row>, strike: real)
    ensures Get(OiByStrike(rows, Call), strike) == Calls(AtStrike(rows, strike))
    ensures Get(OiByStrike(rows, Put), strike) == Puts(AtStrike(rows, strike))
    ensures strike in OiByStrike(rows, Call) || strike in OiByStrike(rows, Put) <==> Listed(rows, strike)
  {
    if rows != [] {
      var init, row := rows[..|rows| - 1], rows[|rows| - 1];
      StrikesBySide(init, strike);
      SumsOfOneMore(AtStrike(init, strike), row);
      ListedLast(rows, strike);
      OneRowMore(rows);
      OneMoreAt(rows, strike);
      hide Calls, Puts, Listed, OiByStrike, AtStrike;
    }
  }

  lemma OneMoreAt(rows: seq<Row>, strike: real)
    requires rows != []
    ensures var init, row := rows[..|rows| - 1], rows[|rows| - 1];
            AtStrike(rows, strike) ==
            if row.strike == Some(strike) then AtStrike(init, strike) + [row] else AtStrike(init, strike)
  {
  }

  lemma SumsOfOneMore(rows: seq<Row>, row: Row)
    ensures Calls(rows + [row]) == Calls(rows) + CallsOf(row) && Puts(rows + [row]) == Puts(rows) + PutsOf(row)
  {
    assert (rows + [row])[..|rows|] == rows;
  }

  lemma ListedLast(rows: seq<Row>, strike: real)
    requires rows != []
    ensures Listed(rows, strike) <==> Listed(rows[..|rows| - 1], strike) || ListsStrike(rows[|rows| - 1], strike)
  {
    var init := rows[..|rows| - 1];
    if Listed(init, strike) {
      var i :| 0 <= i < |init| && ListsStrike(init[i], strike);
      assert ListsStrike(rows[i], strike);
    }
  }

  function Times(a: real, b: real): real { a * b }

  lemma {:induction false} PayoutUpdate(strikes: seq<real>, call: map<real, real>, put: map<real, real>, k: real,
                                        v: real, s: real)
    requires Ascending(strikes) && k in strikes
    ensures Payout(strikes, call[k := v], put, s) ==
            Payout(strikes, call, put, s) + Times(v - Get(call, k), MaxReal(s - k, 0.0))
    ensures Payout(strikes, call, put[k := v], s) ==
            Payout(strikes, call, put, s) + Times(v - Get(put, k), MaxReal(k - s, 0.0))
    decreases |strikes|
  {
    var first, rest := strikes[0], strikes[1..];
    assert strikes == [first] + rest;
    if k == first {
      assert k !in rest;
      PayoutElsewhere(rest, call, put, k, v, s);
      PayUpdate(call, put, k, v, s);
    } else {
      PayoutUpdate(rest, call, put, k, v, s);
    }
    hide Times, Pay;
  }

  lemma PayUpdate(call: map<real, real>, put: map<real, real>, k: real, v: real, s: real)
    ensures var pay := Pay(Get(call, k), Get(put, k), k, s);
            Pay(v, Get(put, k), k, s) == pay + Times(v - Get(call, k), MaxReal(s - k, 0.0)) &&
            Pay(Get(call, k), v, k, s) == pay + Times(v - Get(put, k), MaxReal(k - s, 0.0))
  {
  }

  lemma {:induction false} PayoutElsewhere(strikes: seq<real>, call: map<real, real>, put: map<real, real>, k: real,
                                           v: real, s: real)
    requires k !in strikes
    ensures Payout(strikes, call[k := v], put, s) == Payout(strikes, call, put, s)
    ensures Payout(strikes, call, put[k := v], s) == Payout(strikes, call, put, s)
  {
    if strikes != [] {
      assert strikes == [strikes[0]] + strikes[1..];
      PayoutElsewhere(strikes[1..], call, put, k, v, s);
    }
    hide Pay;
  }

  lemma {:induction false} NothingPaid(strikes: seq<real>, s: real)
    ensures Payout(strikes, map[], map[], s) == 0.0
  {
    if strikes != [] { NothingPaid(strikes[1..], s); }
  }

  /** What `_payout` adds up strike by strike is what the rows pay. */
  lemma {:induction false} PayoutByRows(rows: seq<Row>, strikes: seq<real>, s: real)
    requires Ascending(strikes) && forall k :: Listed(rows, k) ==> k in strikes
    ensures Payout(strikes, OiByStrike(rows, Call), OiByStrike(rows, Put), s) == Paid(rows, s)
  {
    if rows == [] {
      NothingPaid(strikes, s);
    } else {
      var init, row := rows[..|rows| - 1], rows[|rows| - 1];
      forall k | Listed(init, k) ensures k in strikes { ListedLast(rows, k); }
      PayoutByRows(init, strikes, s);
      if row.strike.Some? && (row.ce.Some? || row.pe.Some?) {
        ListedLast(rows, row.strike.value);
        RowPaid(OiByStrike(init, Call), OiByStrike(init, Put), row, strikes, s);
      }
      OneRowMore(rows);
      hide OiByStrike, Payout, Listed, Ascending, CallsOf, PutsOf;
    }
  }

  /** The per-strike sums with one more row. */
  lemma OneRowMore(rows: seq<Row>)
    requires rows != []
    ensures var init, row := rows[..|rows| - 1], rows[|rows| - 1];
            var k := if row.strike.Some? then row.strike.value else 0.0;
            var call, put := OiByStrike(init, Call), OiByStrike(init, Put);
            OiByStrike(rows, Call) ==
              (if row.strike.Some? && row.ce.Some? then call[k := Get(call, k) + CallsOf(row)] else call) &&
            OiByStrike(rows, Put) ==
              (if row.strike.Some? && row.pe.Some? then put[k := Get(put, k) + PutsOf(row)] else put)
  {
  }

  lemma PaidOnBothSides(row: Row, s: real)
    requires row.strike.Some?
    ensures var k := row.strike.value;
            PaidBy(row, s) == Times(CallsOf(row), MaxReal(s - k, 0.0)) + Times(PutsOf(row), MaxReal(k - s, 0.0))
    ensures row.ce.None? ==> Times(CallsOf(row), MaxReal(s - row.strike.value, 0.0)) == 0.0
    ensures row.pe.None? ==> Times(PutsOf(row), MaxReal(row.strike.value - s, 0.0)) == 0.0
  {
  }

  lemma RowPaid(call: map<real, real>, put: map<real, real>, row: Row, strikes: seq<real>, s: real)
    requires Ascending(strikes) && row.strike.Some? && row.strike.value in strikes
    ensures var k := row.strike.value;
            var call' := if row.ce.Some? then call[k := Get(call, k) + CallsOf(row)] else call;
            var put' := if row.pe.Some? then put[k := Get(put, k) + PutsOf(row)] else put;
            Payout(strikes, call', put', s) == Payout(strikes, call, put, s) + PaidBy(row, s)
  {
    hide *;
    var k := row.strike.value;
    var call' := if row.ce.Some? then call[k := Get(call, k) + CallsOf(row)] else call;
    PaidOnBothSides(row, s);
    PayoutUpdate(strikes, call, put, k, Get(call, k) + CallsOf(row), s);
    PayoutUpdate(strikes, call', put, k, Get(put, k) + PutsOf(row), s);
  }

  // ---- Per-strike open interest adds up ----

  lemma {:induction false} SumUpdate(strikes: seq<real>, m: map<real, real>, k: real, v: real)
    requires Ascending(strikes)
    ensures SumOver(strikes, m[k := v]) == SumOver(strikes, m) + (if k in strikes then v - Get(m, k) else 0.0)
  {
    if strikes != [] {
      SumUpdate(strikes[1..], m, k, v);
      assert strikes == [strikes[0]] + strikes[1..];
      if k == strikes[0] { assert k !in strikes[1..]; }
    }
  }

  lemma {:induction false} SumOfNothing(strikes: seq<real>)
    ensures SumOver(strikes, map[]) == 0.0
  {
    if strikes != [] { SumOfNothing(strikes[1..]); }
  }

  /** Over any list of strikes that names them all, per-strike open interest sums to the total. */
  lemma {:induction false} StrikesSumToTotal(rows: seq<Row>, side: Side, strikes: seq<real>)
    requires Ascending(strikes) && forall k :: k in OiByStrike(rows, side) ==> k in strikes
    ensures SumOver(strikes, OiByStrike(rows, side)) == TotalOi(rows, side)
  {
    if rows == [] {
      SumOfNothing(strikes);
    } else {
      var init, row := rows[..|rows| - 1], rows[|rows| - 1];
      var before, c := OiByStrike(init, side), ContractOf(row, side);
      if c.Some? {
        assert row.strike.value in OiByStrike(rows, side);
        assert forall k :: k in before ==> k in OiByStrike(rows, side);
      }
      StrikesSumToTotal(init, side, strikes);
      if c.Some? {
        SumUpdate(strikes, before, row.strike.value, Get(before, row.strike.value) + OiOf(c.value));
      }
    }
  }

  // ---- The payout is a convex polygon with its corners at the strikes ----

  function Rise(slope: real, run: real): real { slope * run }

  lemma RiseAdds(m: real, n: real, run: real)
    ensures Rise(m + n, run) == Rise(m, run) + Rise(n, run)
  {
  }

  lemma RiseSign(m: real, run: real)
    ensures (m >= 0.0 && run >= 0.0) || (m <= 0.0 && run <= 0.0) ==> Rise(m, run) >= 0.0
    ensures Rise(m, -run) == Rise(-m, run) == -Rise(m, run)
  {
  }

  /** Above `lo` a strike's calls gain with the price if it is at or below; its puts lose if it is above. */
  function SlopeAt(call: real, put: real, strike: real, lo: real): real { if strike <= lo then call else -put }

  function Slope(strikes: seq<real>, call: map<real, real>, put: map<real, real>, lo: real): real {
    if strikes == [] then 0.0
    else Slope(strikes[1..], call, put, lo) + SlopeAt(Get(call, strikes[0]), Get(put, strikes[0]), strikes[0], lo)
  }

  lemma StrikeLine(call: real, put: real, strike: real, a: real, s: real)
    requires strike <= MinReal(a, s) || strike >= MaxReal(a, s)
    ensures Pay(call, put, strike, s) ==
            Pay(call, put, strike, a) + Rise(SlopeAt(call, put, strike, MinReal(a, s)), s - a)
  {
    if strike <= MinReal(a, s) {
      assert call * (s - strike) == call * (a - strike) + call * (s - a);
    } else {
      assert put * (strike - s) == put * (strike - a) + -put * (s - a);
    }
  }

  /** Between two prices with no strike strictly between them, the payout is a straight line. */
  lemma {:induction false} PayoutLine(strikes: seq<real>, call: map<real, real>, put: map<real, real>, a: real, s: real)
    requires forall i :: 0 <= i < |strikes| ==> strikes[i] <= MinReal(a, s) || strikes[i] >= MaxReal(a, s)
    ensures Payout(strikes, call, put, s) ==
            Payout(strikes, call, put, a) + Rise(Slope(strikes, call, put, MinReal(a, s)), s - a)
  {
    if strikes == [] {
      assert Rise(0.0, s - a) == 0.0;
    } else {
      hide Rise, Pay, SlopeAt;
      var k, lo := strikes[0], MinReal(a, s);
      PayoutLine(strikes[1..], call, put, a, s);
      StrikeLine(Get(call, k), Get(put, k), k, a, s);
      RiseAdds(Slope(strikes[1..], call, put, lo), SlopeAt(Get(call, k), Get(put, k), k, lo), s - a);
    }
  }

  lemma {:induction false} SlopeAbove(strikes: seq<real>, call: map<real, real>, put: map<real, real>, lo: real)
    requires forall i :: 0 <= i < |strikes| ==> strikes[i] <= lo
    ensures Slope(strikes, call, put, lo) == SumOver(strikes, call)
  {
    if strikes != [] { SlopeAbove(strikes[1..], call, put, lo); }
  }

  lemma {:induction false} SlopeBelow(strikes: seq<real>, call: map<real, real>, put: map<real, real>, lo: real)
    requires forall i :: 0 <= i < |strikes| ==> lo < strikes[i]
    ensures Slope(strikes, call, put, lo) == -SumOver(strikes, put)
  {
    if strikes != [] { SlopeBelow(strikes[1..], call, put, lo); }
  }

  /** The strike at or below a price within the range of the strikes; the next one is above it. */
  lemma {:induction false} Bracket(strikes: seq<real>, s: real) returns (i: nat)
    requires strikes != [] && strikes[0] <= s < strikes[|strikes| - 1]
    ensures i + 1 < |strikes| && strikes[i] <= s < strikes[i + 1]
  {
    i := 0;
    while strikes[i + 1] <= s
      invariant i + 1 < |strikes| && strikes[i] <= s
      decreases |strikes| - i
    {
      i := i + 1;
    }
  }

  ghost predicate LeastAmong(strikes: seq<real>, call: map<real, real>, put: map<real, real>, best: real) {
    best in strikes &&
    forall i :: 0 <= i < |strikes| ==> Payout(strikes, call, put, best) <= Payout(strikes, call, put, strikes[i])
  }

  /** `best` minimises what all contracts pay over every settlement price whatever. */
  ghost predicate LeastOfAll(strikes: seq<real>, call: map<real, real>, put: map<real, real>, best: real) {
    forall s: real :: Payout(strikes, call, put, best) <= Payout(strikes, call, put, s)
  }

  /** Below all strikes the payout rises by the put interest per point, above all by the call interest. */
  lemma Outside(strikes: seq<real>, call: map<real, real>, put: map<real, real>, s: real)
    requires strikes != [] && Ascending(strikes)
    ensures var first, last := strikes[0], strikes[|strikes| - 1];
            (s < first ==> Payout(strikes, call, put, s) ==
                           Payout(strikes, call, put, first) + Rise(SumOver(strikes, put), first - s)) &&
            (s > last ==> Payout(strikes, call, put, s) ==
                          Payout(strikes, call, put, last) + Rise(SumOver(strikes, call), s - last))
  {
    hide Rise, Payout, Slope, SumOver;
    var first, last := strikes[0], strikes[|strikes| - 1];
    assert forall i :: 0 <= i < |strikes| ==> first <= strikes[i] <= last;
    if s < first {
      PayoutLine(strikes, call, put, first, s);
      SlopeBelow(strikes, call, put, s);
      RiseSign(SumOver(strikes, put), first - s);
      RiseSign(SumOver(strikes, put), s - first);
    } else if s > last {
      PayoutLine(strikes, call, put, last, s);
      SlopeAbove(strikes, call, put, last);
    }
  }

  /** Between two neighbouring strikes the payout is at least the lesser of theirs. */
  lemma Inside(strikes: seq<real>, call: map<real, real>, put: map<real, real>, i: nat, s: real)
    requires Ascending(strikes) && i + 1 < |strikes| && strikes[i] <= s <= strikes[i + 1]
    ensures Payout(strikes, call, put, strikes[i]) <= Payout(strikes, call, put, s) ||
            Payout(strikes, call, put, strikes[i + 1]) <= Payout(strikes, call, put, s)
  {
    hide Rise, Payout, Slope;
    var a, b := strikes[i], strikes[i + 1];
    assert forall j :: 0 <= j < |strikes| ==> strikes[j] <= a || b <= strikes[j];
    PayoutLine(strikes, call, put, a, s);
    PayoutLine(strikes, call, put, a, b);
    var m := Slope(strikes, call, put, a);
    RiseSign(m, s - a);
    RiseAdds2(m, s - a, b - s);
    RiseSign(m, s - b);
    RiseSign(m, b - s);
  }

  lemma RiseAdds2(m: real, run: real, more: real)
    ensures Rise(m, run + more) == Rise(m, run) + Rise(m, more)
  {
  }

  lemma NoCheaperOutside(strikes: seq<real>, call: map<real, real>, put: map<real, real>, s: real)
    requires strikes != [] && Ascending(strikes)
    requires SumOver(strikes, call) >= 0.0 && SumOver(strikes, put) >= 0.0
    requires s < strikes[0] || strikes[|strikes| - 1] < s
    ensures Payout(strikes, call, put, strikes[0]) <= Payout(strikes, call, put, s) ||
            Payout(strikes, call, put, strikes[|strikes| - 1]) <= Payout(strikes, call, put, s)
  {
    hide Rise, Payout, SumOver, Ascending;
    Outside(strikes, call, put, s);
    RiseSign(SumOver(strikes, put), strikes[0] - s);
    RiseSign(SumOver(strikes, call), s - strikes[|strikes| - 1]);
  }

  /** At any price some strike is at least as cheap. */
  lemma SomeStrikeAsCheap(strikes: seq<real>, call: map<real, real>, put: map<real, real>, s: real) returns (i: nat)
    requires strikes != [] && Ascending(strikes)
    requires SumOver(strikes, call) >= 0.0 && SumOver(strikes, put) >= 0.0
    ensures i < |strikes| && Payout(strikes, call, put, strikes[i]) <= Payout(strikes, call, put, s)
  {
    hide Payout, SumOver, Ascending;
    var n := |strikes|;
    if s < strikes[0] || strikes[n - 1] < s {
      NoCheaperOutside(strikes, call, put, s);
      i := if Payout(strikes, call, put, strikes[0]) <= Payout(strikes, call, put, s) then 0 else n - 1;
    } else if s == strikes[n - 1] {
      i := n - 1;
    } else {
      i := Bracket(strikes, s);
      Inside(strikes, call, put, i, s);
      i := if Payout(strikes, call, put, strikes[i]) <= Payout(strikes, call, put, s) then i else i + 1;
    }
  }

  lemma Overtake(start: real, slope: real, target: real) returns (t: real)
    requires slope < 0.0
    ensures t > 0.0 && start + Rise(slope, t) < target
  {
    var gap := MaxReal(start - target, 0.0) + 1.0;
    t := gap / -slope;
    assert slope * t == -gap;
  }

  /**
   * The strike that is cheapest among the strikes is cheapest among all settlement prices
   * exactly when neither side's open interest adds up to less than nothing.
   */
  lemma MaxPainOverAllPrices(strikes: seq<real>, call: map<real, real>, put: map<real, real>, best: real)
    requires Ascending(strikes) && LeastAmong(strikes, call, put, best)
    ensures LeastOfAll(strikes, call, put, best) <==>
            SumOver(strikes, call) >= 0.0 && SumOver(strikes, put) >= 0.0
  {
    hide Rise, Payout, SumOver;
    var first, last, least := strikes[0], strikes[|strikes| - 1], Payout(strikes, call, put, best);
    if SumOver(strikes, put) < 0.0 {
      var t := Overtake(Payout(strikes, call, put, first), SumOver(strikes, put), least);
      Outside(strikes, call, put, first - t);
      assert first - (first - t) == t;
      assert Payout(strikes, call, put, first - t) < least;
      assert !LeastOfAll(strikes, call, put, best);
    } else if SumOver(strikes, call) < 0.0 {
      var t := Overtake(Payout(strikes, call, put, last), SumOver(strikes, call), least);
      Outside(strikes, call, put, last + t);
      assert last + t - last == t;
      assert Payout(strikes, call, put, last + t) < least;
      assert !LeastOfAll(strikes, call, put, best);
    } else {
      forall s: real ensures least <= Payout(strikes, call, put, s) {
        var i := SomeStrikeAsCheap(strikes, call, put, s);
      }
    }
  }

  // ---- The computation ----

  /** `min(xs, key=...)` over an ascending list: the first of the least. */
  method FirstLeast(xs: seq<real>, key: real -> real) returns (best: real)
    requires xs != [] && Ascending(xs)
    ensures best in xs
    ensures forall i :: 0 <= i < |xs| ==> key(best) <= key(xs[i])
    ensures forall i :: 0 <= i < |xs| && key(xs[i]) == key(best) ==> best <= xs[i]
  {
    best := xs[0];
    for i := 1 to |xs|
      invariant best in xs[..i]
      invariant forall j :: 0 <= j < i ==> key(best) <= key(xs[j])
      invariant forall j :: 0 <= j < i && key(xs[j]) == key(best) ==> best <= xs[j]
    {
      if key(xs[i]) < key(best) {
        best := xs[i];
      } else {
        var k :| 0 <= k < i && xs[k] == best;
        assert best < xs[i];
      }
    }
  }

  function InsertStrike(sorted: seq<real>, k: real): (r: seq<real>)
    requires Ascending(sorted)
    ensures Ascending(r) && forall x :: x in r <==> x in sorted || x == k
  {
    if sorted == [] then [k]
    else if k < sorted[0] then [k] + sorted
    else if k == sorted[0] then sorted
    else
      var rest := InsertStrike(sorted[1..], k);
      assert sorted == [sorted[0]] + sorted[1..];
      assert forall i :: 0 <= i < |rest| ==> rest[i] in rest;
      [sorted[0]] + rest
  }

  lemma Inhabited(s: set<real>)
    ensures s == {} || exists k :: k in s
  {
    if forall k :: k !in s { assert s == {}; }
  }

  /** `sorted(a | b)`. */
  method SortStrikes(keys: set<real>) returns (strikes: seq<real>)
    ensures Ascending(strikes) && forall k :: k in strikes <==> k in keys
  {
    strikes := [];
    var left := keys;
    while left != {}
      invariant left <= keys && Ascending(strikes)
      invariant forall k :: k in strikes <==> k in keys - left
      decreases |left|
    {
      Inhabited(left);
      var k :| k in left;
      strikes := InsertStrike(strikes, k);
      left := left - {k};
    }
  }

  ghost predicate Nearest(strikes: seq<real>, price: real, atm: real) {
    atm in strikes && forall i :: 0 <= i < |strikes| ==>
      AbsReal(atm - price) <= AbsReal(strikes[i] - price) &&
      (AbsReal(strikes[i] - price) == AbsReal(atm - price) ==> atm <= strikes[i])
  }

  /** No lower strike pays as little. */
  ghost predicate LowestOfTies(strikes: seq<real>, call: map<real, real>, put: map<real, real>, best: real) {
    forall i :: 0 <= i < |strikes| && Payout(strikes, call, put, strikes[i]) == Payout(strikes, call, put, best) ==>
      best <= strikes[i]
  }

  /** The strike nearest the underlying's price, the lower of two at the same distance. */
  method NearestStrike(strikes: seq<real>, price: real) returns (atm: real)
    requires strikes != [] && Ascending(strikes)
    ensures Nearest(strikes, price, atm)
  {
    atm := FirstLeast(strikes, s => AbsReal(s - price));
  }

  /** The strike of least payout, the lowest of several: over all prices, if both sides are non-negative. */
  method MaxPain(strikes: seq<real>, call: map<real, real>, put: map<real, real>) returns (best: real)
    requires strikes != [] && Ascending(strikes)
    ensures LeastAmong(strikes, call, put, best) && best in strikes
    ensures LowestOfTies(strikes, call, put, best)
    ensures SumOver(strikes, call) >= 0.0 && SumOver(strikes, put) >= 0.0 <==>
            LeastOfAll(strikes, call, put, best)
  {
    best := FirstLeast(strikes, s => Payout(strikes, call, put, s));
    MaxPainOverAllPrices(strikes, call, put, best);
  }

  /** Totals and per-strike sums of both sides, in one pass over the rows. */
  method SumOpenInterest(rows: seq<Row>)
    returns (callTotal: real, putTotal: real, call: map<real, real>, put: map<real, real>)
    ensures callTotal == TotalOi(rows, Call) && putTotal == TotalOi(rows, Put)
    ensures call == OiByStrike(rows, Call) && put == OiByStrike(rows, Put)
  {
    callTotal, putTotal, call, put := 0.0, 0.0, map[], map[];
    for i := 0 to |rows|
      invariant call == OiByStrike(rows[..i], Call) && put == OiByStrike(rows[..i], Put)
      invariant callTotal == TotalOi(rows[..i], Call) && putTotal == TotalOi(rows[..i], Put)
    {
      var row := rows[i];
      assert rows[..i + 1][..i] == rows[..i];
      if row.strike.Some? {
        var strike := row.strike.value;
        if row.ce.Some? {
          callTotal := callTotal + OiOf(row.ce.value);
          call := call[strike := Get(call, strike) + OiOf(row.ce.value)];
        }
        if row.pe.Some? {
          putTotal := putTotal + OiOf(row.pe.value);
          put := put[strike := Get(put, strike) + OiOf(row.pe.value)];
        }
      }
    }
    assert rows[..|rows|] == rows;
  }

  /** The lowest of the strikes at which the rows pay least. */
  ghost predicate PainStrike(rows: seq<Row>, strikes: seq<real>, best: real) {
    best in strikes && forall i :: 0 <= i < |strikes| ==>
      Paid(rows, best) <= Paid(rows, strikes[i]) && (Paid(rows, strikes[i]) == Paid(rows, best) ==> best <= strikes[i])
  }

  /** No settlement price at all makes the rows pay less. */
  ghost predicate CheapestPrice(rows: seq<Row>, best: real) { forall s: real :: Paid(rows, best) <= Paid(rows, s) }

  /** Per-strike sums and rows tell the same least payout. */
  lemma PainByRows(rows: seq<Row>, strikes: seq<real>, best: real)
    requires Ascending(strikes) && forall k :: Listed(rows, k) ==> k in strikes
    requires var call, put := OiByStrike(rows, Call), OiByStrike(rows, Put);
             LeastAmong(strikes, call, put, best) && LowestOfTies(strikes, call, put, best)
    ensures PainStrike(rows, strikes, best)
    ensures LeastOfAll(strikes, OiByStrike(rows, Call), OiByStrike(rows, Put), best) <==> CheapestPrice(rows, best)
  {
    forall s: real ensures Payout(strikes, OiByStrike(rows, Call), OiByStrike(rows, Put), s) == Paid(rows, s) {
      PayoutByRows(rows, strikes, s);
    }
    hide Payout, Paid, OiByStrike;
  }

  lemma StrikesListed(rows: seq<Row>, strikes: seq<real>)
    requires forall k :: k in strikes <==> k in OiByStrike(rows, Call) || k in OiByStrike(rows, Put)
    ensures forall k :: k in strikes <==> Listed(rows, k)
  {
    forall k: real ensures k in strikes <==> Listed(rows, k) { StrikesBySide(rows, k); }
  }

  datatype Analytics = Analytics(
    totalCallOi: real, totalPutOi: real, strikes: seq<real>, atmStrike: Option<real>, maxPainStrike: Option<real>)

  /** Open interest, the at-the-money strike and the max-pain strike of one chain, in terms of its rows. */
  method ComputeChain(rows: seq<Row>, underlying: Option<real>) returns (a: Analytics)
    ensures a.totalCallOi == Calls(rows) && a.totalPutOi == Puts(rows)
    ensures Ascending(a.strikes) && forall k :: k in a.strikes <==> Listed(rows, k)
    ensures SumOver(a.strikes, OiByStrike(rows, Call)) == a.totalCallOi
    ensures SumOver(a.strikes, OiByStrike(rows, Put)) == a.totalPutOi
    ensures a.maxPainStrike.Some? <==> a.strikes != []
    ensures a.maxPainStrike.Some? ==>
      PainStrike(rows, a.strikes, a.maxPainStrike.value) &&
      (CheapestPrice(rows, a.maxPainStrike.value) <==> a.totalCallOi >= 0.0 && a.totalPutOi >= 0.0)
    ensures a.atmStrike.Some? <==> underlying.Some? && a.strikes != []
    ensures a.atmStrike.Some? ==> Nearest(a.strikes, underlying.value, a.atmStrike.value)
  {
    hide Nearest, LowestOfTies, PainStrike, CheapestPrice, Calls, Puts, Listed;
    hide Payout, SumOver, OiByStrike, TotalOi, LeastAmong, LeastOfAll;
    var callTotal, putTotal, call, put := SumOpenInterest(rows);
    var strikes := SortStrikes(call.Keys + put.Keys);
    TotalsBySide(rows);
    StrikesListed(rows, strikes);
    StrikesSumToTotal(rows, Call, strikes);
    StrikesSumToTotal(rows, Put, strikes);
    var atm: Option<real>, pain: Option<real> := None, None;
    if underlying.Some? && strikes != [] {
      var near := NearestStrike(strikes, underlying.value);
      atm := Some(near);
    }
    if strikes != [] {
      var best := MaxPain(strikes, call, put);
      PainByRows(rows, strikes, best);
      pain := Some(best);
    }
    a := Analytics(callTotal, putTotal, strikes, atm, pain);
  }
}
