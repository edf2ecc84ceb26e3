/** The sector factor without the stock itself, and pending lag effects. */
module LagResponse {
  import opened Basics

  const LAGS := 5
  const CLIP := 0.05

  /** A series of minutes; None where a value is undefined. */
  type Series = seq<Option<real>>

  function Clip(x: real): real { MaxReal(-CLIP, MinReal(CLIP, x)) }

  // ---- Leave-one-out sector means ----

  /** A stock's clipped return in excess of the market's, if it has a bar. */
  function Excess(r: seq<Series>, market: seq<real>, i: nat, t: nat): Option<real>
    requires i < |r| && t < |r[i]| && t < |market|
  {
    if r[i][t].None? then None else Some(Clip(r[i][t].value - market[t]))
  }

  ghost predicate Rectangular(r: seq<Series>, market: seq<real>) {
    forall i :: 0 <= i < |r| ==> |r[i]| == |market|
  }

  ghost predicate Members(idx: seq<nat>, n: nat) { forall p :: 0 <= p < |idx| ==> idx[p] < n }

  function Total(r: seq<Series>, market: seq<real>, idx: seq<nat>, t: nat): real
    requires Rectangular(r, market) && Members(idx, |r|) && t < |market|
  {
    if idx == [] then 0.0
    else
      var e := Excess(r, market, idx[|idx| - 1], t);
      Total(r, market, idx[..|idx| - 1], t) + (if e.Some? then e.value else 0.0)
  }

  function Count(r: seq<Series>, market: seq<real>, idx: seq<nat>, t: nat): nat
    requires Rectangular(r, market) && Members(idx, |r|) && t < |market|
  {
    if idx == [] then 0
    else Count(r, market, idx[..|idx| - 1], t) + (if Excess(r, market, idx[|idx| - 1], t).Some? then 1 else 0)
  }

  /** The mean over some stocks with data. */
  function Mean(r: seq<Series>, market: seq<real>, idx: seq<nat>, t: nat): Option<real>
    requires Rectangular(r, market) && Members(idx, |r|) && t < |market|
  {
    var n := Count(r, market, idx, t);
    if n == 0 then None else Some(Total(r, market, idx, t) / n as real)
  }

  function Others(idx: seq<nat>, pos: nat): seq<nat>
    requires pos < |idx|
  {
    idx[..pos] + idx[pos + 1..]
  }

  lemma {:induction false} SumsConcat(r: seq<Series>, market: seq<real>, a: seq<nat>, b: seq<nat>, t: nat)
    requires Rectangular(r, market) && Members(a, |r|) && Members(b, |r|) && t < |market|
    ensures Members(a + b, |r|)
    ensures Total(r, market, a + b, t) == Total(r, market, a, t) + Total(r, market, b, t)
    ensures Count(r, market, a + b, t) == Count(r, market, a, t) + Count(r, market, b, t)
  {
    if b == [] {
      assert a + b == a;
    } else {
      assert (a + b)[..|a + b| - 1] == a + b[..|b| - 1];
      SumsConcat(r, market, a, b[..|b| - 1], t);
    }
  }

  lemma OneMember(r: seq<Series>, market: seq<real>, i: nat, t: nat)
    requires Rectangular(r, market) && i < |r| && t < |market|
    ensures var e := Excess(r, market, i, t);
            Total(r, market, [i], t) == (if e.Some? then e.value else 0.0) &&
            Count(r, market, [i], t) == if e.Some? then 1 else 0
  {
    assert [i][..0] == [];
  }

  /** Taking a stock's own part out of the sums leaves the sums over the others. */
  lemma SubtractOwn(r: seq<Series>, market: seq<real>, idx: seq<nat>, pos: nat, t: nat)
    requires Rectangular(r, market) && Members(idx, |r|) && t < |market| && pos < |idx|
    ensures Members(Others(idx, pos), |r|)
    ensures var e := Excess(r, market, idx[pos], t);
            Total(r, market, Others(idx, pos), t) == Total(r, market, idx, t) - (if e.Some? then e.value else 0.0) &&
            Count(r, market, Others(idx, pos), t) == Count(r, market, idx, t) - (if e.Some? then 1 else 0)
  {
    hide Total, Count;
    var a, own, b := idx[..pos], [idx[pos]], idx[pos + 1..];
    assert idx == (a + own) + b;
    assert Members(a, |r|) && Members(own, |r|) && Members(b, |r|);
    SumsConcat(r, market, a, own, t);
    SumsConcat(r, market, a + own, b, t);
    SumsConcat(r, market, a, b, t);
    OneMember(r, market, idx[pos], t);
  }

  ghost predicate Disjoint(groups: seq<seq<nat>>) {
    (forall g, p, q :: 0 <= g < |groups| && 0 <= p < q < |groups[g]| ==> groups[g][p] != groups[g][q]) &&
    forall g, h, p, q :: 0 <= g < h < |groups| && 0 <= p < |groups[g]| && 0 <= q < |groups[h]| ==>
                         groups[g][p] != groups[h][q]
  }

  /** One stock's factor: group sums less its own part, over the peers with data. */
  method PeerRow(r: seq<Series>, market: seq<real>, idx: seq<nat>, pos: nat) returns (row: Series)
    requires Rectangular(r, market) && Members(idx, |r|) && pos < |idx|
    ensures |row| == |market| && PeerMeanRow(row, r, market, Others(idx, pos))
  {
    assert Members(Others(idx, pos), |r|);
    row := [];
    for t := 0 to |market|
      invariant |row| == t
      invariant forall u :: 0 <= u < t ==> row[u] == Mean(r, market, Others(idx, pos), u)
    {
      SubtractOwn(r, market, idx, pos, t);
      var total, count := Total(r, market, idx, t), Count(r, market, idx, t);
      var own := Excess(r, market, idx[pos], t);
      var peers := count - if own.Some? then 1 else 0;
      row := row + [if peers > 0 then Some((total - if own.Some? then own.value else 0.0) / peers as real) else None];
    }
  }

  /** Every stock of a group has the mean over its peers, the group without itself. */
  ghost predicate PeerMeans(out: seq<Series>, r: seq<Series>, market: seq<real>, idx: seq<nat>)
    requires Rectangular(r, market) && Rectangular(out, market) && |out| == |r|
  {
    Members(idx, |r|) &&
    forall p :: 0 <= p < |idx| ==> PeerMeanRow(out[idx[p]], r, market, Others(idx, p))
  }

  ghost predicate PeerMeanRow(row: Series, r: seq<Series>, market: seq<real>, peers: seq<nat>)
    requires Rectangular(r, market) && |row| == |market|
  {
    Members(peers, |r|) && forall t :: 0 <= t < |market| ==> row[t] == Mean(r, market, peers, t)
  }

  ghost predicate Grouped(groups: seq<seq<nat>>, i: nat) { exists g :: 0 <= g < |groups| && i in groups[g] }

  /** One group's rows, the other stocks' rows kept. */
  method GroupRows(out: seq<Series>, r: seq<Series>, market: seq<real>, idx: seq<nat>) returns (filled: seq<Series>)
    requires Rectangular(r, market) && Rectangular(out, market) && |out| == |r| && Members(idx, |r|)
    requires forall p, q :: 0 <= p < q < |idx| ==> idx[p] != idx[q]
    ensures |filled| == |r| && Rectangular(filled, market)
    ensures PeerMeans(filled, r, market, idx)
    ensures forall i :: 0 <= i < |r| && i !in idx ==> filled[i] == out[i]
  {
    hide PeerMeanRow;
    filled := out;
    for pos := 0 to |idx|
      invariant |filled| == |r| && Rectangular(filled, market)
      invariant forall p :: 0 <= p < pos ==> PeerMeanRow(filled[idx[p]], r, market, Others(idx, p))
      invariant forall i :: 0 <= i < |r| && i !in idx ==> filled[i] == out[i]
    {
      var row := PeerRow(r, market, idx, pos);
      filled := filled[idx[pos] := row];
    }
  }

  /** `sector_factor`: each grouped stock against the direct mean of its peers, the others undefined. */
  method SectorFactor(r: seq<Series>, market: seq<real>, groups: seq<seq<nat>>) returns (out: seq<Series>)
    requires Rectangular(r, market) && Disjoint(groups)
    requires forall g :: 0 <= g < |groups| ==> Members(groups[g], |r|)
    ensures |out| == |r| && Rectangular(out, market)
    ensures forall g :: 0 <= g < |groups| ==> PeerMeans(out, r, market, groups[g])
    ensures forall i :: 0 <= i < |r| && !Grouped(groups, i) ==> forall t :: 0 <= t < |market| ==> out[i][t] == None
  {
    hide PeerMeanRow;
    out := seq(|r|, _ => seq(|market|, _ => None));
    for g := 0 to |groups|
      invariant |out| == |r| && Rectangular(out, market)
      invariant forall h :: 0 <= h < g ==> PeerMeans(out, r, market, groups[h])
      invariant forall i :: 0 <= i < |r| && !Grouped(groups, i) ==> forall t :: 0 <= t < |market| ==> out[i][t] == None
    {
      ghost var before := out;
      out := GroupRows(out, r, market, groups[g]);
      forall h | 0 <= h < g ensures PeerMeans(out, r, market, groups[h]) {
        assert PeerMeans(before, r, market, groups[h]);
        assert forall p :: 0 <= p < |groups[h]| ==> out[groups[h][p]] == before[groups[h][p]];
      }
    }
  }

  // ---- Lagged parts ----

  /** `nan_to_num`. */
  function OrZero(x: Option<real>): real { if x.Some? then x.value else 0.0 }

  /** `_lagged`: a series shifted by some minutes, undefined at the start. */
  function Lagged(x: Series, lag: nat): Series {
    seq(|x|, t requires 0 <= t < |x| => if t < lag then None else x[t - lag])
  }

  /** One stock's part of the expected return at a minute, over lags from `lag` on: `lag_parts`. */
  function LagPart(beta: seq<real>, x: Series, t: nat, lag: nat): real
    requires |beta| == LAGS + 1 && t < |x|
    decreases LAGS + 1 - lag
  {
    if lag > LAGS then 0.0 else LagTerm(beta, x, t, lag) + LagPart(beta, x, t, lag + 1)
  }

  function LagTerm(beta: seq<real>, x: Series, t: nat, lag: nat): real
    requires |beta| == LAGS + 1 && lag <= LAGS && t < |x|
  {
    beta[lag] * OrZero(Lagged(x, lag)[t])
  }

  /** The expected return at a minute from both factors. */
  function Expected(bm: seq<real>, bs: seq<real>, market: Series, sector: Series, t: nat): real
    requires |bm| == |bs| == LAGS + 1 && t < |market| && t < |sector|
  {
    LagPart(bm, market, t, 0) + LagPart(bs, sector, t, 0)
  }

  /** A series continued by minutes in which the factor does not move. */
  function Still(x: Series): Series { x + seq(LAGS, _ => Some(0.0)) }

  /** Expected returns of the `h`th and later of the next LAGS minutes if no factor moves again. */
  function StillToCome(bm: seq<real>, bs: seq<real>, market: Series, sector: Series, h: nat): real
    requires |bm| == |bs| == LAGS + 1 && |market| == |sector| > 0 && h >= 1
    decreases LAGS + 1 - h
  {
    if h > LAGS then 0.0
    else
      Expected(bm, bs, Still(market), Still(sector), |market| - 1 + h) + StillToCome(bm, bs, market, sector, h + 1)
  }

  /** A lagged term of a minute ahead: zero until the lag reaches back to a minute already seen. */
  lemma AheadTerm(x: Series, h: nat, lag: nat)
    requires 1 <= h <= LAGS && lag <= LAGS && x != []
    ensures var src := |x| - 1 - (lag - h);
            OrZero(Lagged(Still(x), lag)[|x| - 1 + h]) == if lag >= h && 0 <= src then OrZero(x[src]) else 0.0
  {
    var t := |x| - 1 + h;
    if lag <= t {
      assert Lagged(Still(x), lag)[t] == Still(x)[t - lag];
    }
  }

  /** Lags too short to reach back contribute nothing. */
  lemma {:induction false} ShortLags(beta: seq<real>, x: Series, h: nat, lag: nat)
    requires |beta| == LAGS + 1 && 1 <= h <= LAGS && lag <= h && x != []
    ensures LagPart(beta, Still(x), |x| - 1 + h, lag) == LagPart(beta, Still(x), |x| - 1 + h, h)
    decreases h - lag
  {
    if lag < h {
      AheadTerm(x, h, lag);
      ShortLags(beta, x, h, lag + 1);
    }
  }

  /** One (h, lag) term of the loop. */
  function Term(bm: seq<real>, bs: seq<real>, market: Series, sector: Series, h: nat, lag: nat): real
    requires |bm| == |bs| == LAGS + 1 && |market| == |sector| && 1 <= h <= lag <= LAGS
  {
    var src := |market| - 1 - (lag - h);
    if 0 <= src < |market| then bm[lag] * OrZero(market[src]) + bs[lag] * OrZero(sector[src]) else 0.0
  }

  lemma TermIsLagged(bm: seq<real>, bs: seq<real>, market: Series, sector: Series, h: nat, lag: nat)
    requires |bm| == |bs| == LAGS + 1 && |market| == |sector| > 0 && 1 <= h <= lag <= LAGS
    ensures var t := |market| - 1 + h;
            Term(bm, bs, market, sector, h, lag) ==
            LagTerm(bm, Still(market), t, lag) + LagTerm(bs, Still(sector), t, lag)
  {
    AheadTerm(market, h, lag);
    AheadTerm(sector, h, lag);
  }

  /** The terms that one minute ahead adds to the running total. */
  method PendingAt(bm: seq<real>, bs: seq<real>, market: Series, sector: Series, h: nat, start: real)
    returns (pending: real)
    requires |bm| == |bs| == LAGS + 1 && |market| == |sector| && 1 <= h <= LAGS
    ensures pending == start +
                       if market == [] then 0.0 else Expected(bm, bs, Still(market), Still(sector), |market| - 1 + h)
  {
    hide Term;
    pending := start;
    TermsAreExpected(bm, bs, market, sector, h);
    var after := TermsFrom(bm, bs, market, sector, h, h);
    for lag := h to LAGS + 1
      invariant pending + TermsFrom(bm, bs, market, sector, h, lag) == start + after
    {
      pending := AddTerm(bm, bs, market, sector, h, lag, pending);
    }
  }

  method AddTerm(bm: seq<real>, bs: seq<real>, market: Series, sector: Series, h: nat, lag: nat, start: real)
      returns (pending: real)
    requires |bm| == |bs| == LAGS + 1 && |market| == |sector| && 1 <= h <= lag <= LAGS
    ensures pending == start + Term(bm, bs, market, sector, h, lag)
  {
    hide OrZero;
    pending := start;
    var src := |market| - 1 - (lag - h);
    if 0 <= src < |market| {
      pending := pending + bm[lag] * OrZero(market[src]);
      pending := pending + bs[lag] * OrZero(sector[src]);
    }
  }

  /** The (h, lag) terms from one lag on. */
  function TermsFrom(bm: seq<real>, bs: seq<real>, market: Series, sector: Series, h: nat, lag: nat): real
    requires |bm| == |bs| == LAGS + 1 && |market| == |sector| && 1 <= h <= lag
    decreases LAGS + 1 - lag
  {
    if lag > LAGS then 0.0
    else Term(bm, bs, market, sector, h, lag) + TermsFrom(bm, bs, market, sector, h, lag + 1)
  }

  lemma {:induction false} TermsAreLagParts(bm: seq<real>, bs: seq<real>, market: Series, sector: Series, h: nat,
                                            lag: nat)
    requires |bm| == |bs| == LAGS + 1 && |market| == |sector| > 0 && 1 <= h <= LAGS && h <= lag
    ensures TermsFrom(bm, bs, market, sector, h, lag) ==
            LagPart(bm, Still(market), |market| - 1 + h, lag) + LagPart(bs, Still(sector), |market| - 1 + h, lag)
    decreases LAGS + 1 - lag
  {
    hide Term, LagTerm;
    if lag <= LAGS {
      TermIsLagged(bm, bs, market, sector, h, lag);
      TermsAreLagParts(bm, bs, market, sector, h, lag + 1);
    }
  }

  /** The terms of one minute ahead are its expected return when no factor moves again. */
  lemma TermsAreExpected(bm: seq<real>, bs: seq<real>, market: Series, sector: Series, h: nat)
    requires |bm| == |bs| == LAGS + 1 && |market| == |sector| && 1 <= h <= LAGS
    ensures TermsFrom(bm, bs, market, sector, h, h) ==
            if market == [] then 0.0 else Expected(bm, bs, Still(market), Still(sector), |market| - 1 + h)
  {
    if market == [] {
      NoTerms(bm, bs, market, sector, h, h);
    } else {
      TermsAreLagParts(bm, bs, market, sector, h, h);
      ShortLags(bm, market, h, 0);
      ShortLags(bs, sector, h, 0);
    }
  }

  lemma {:induction false} NoTerms(bm: seq<real>, bs: seq<real>, market: Series, sector: Series, h: nat, lag: nat)
    requires |bm| == |bs| == LAGS + 1 && |market| == |sector| == 0 && 1 <= h <= lag
    ensures TermsFrom(bm, bs, market, sector, h, lag) == 0.0
    decreases LAGS + 1 - lag
  {
    if lag <= LAGS { NoTerms(bm, bs, market, sector, h, lag + 1); }
  }

  /**
   * The pending loop of `evaluate_state`, for one stock: it adds up exactly the model's expected
   * returns over the next LAGS minutes, with every future factor move set to zero.
   */
  method Pending(bm: seq<real>, bs: seq<real>, market: Series, sector: Series) returns (pending: real)
    requires |bm| == |bs| == LAGS + 1 && |market| == |sector|
    ensures pending == if market == [] then 0.0 else StillToCome(bm, bs, market, sector, 1)
  {
    hide Expected;
    pending := 0.0;
    for h := 1 to LAGS + 1
      invariant market == [] ==> pending == 0.0
      invariant market != [] ==>
        pending + StillToCome(bm, bs, market, sector, h) == StillToCome(bm, bs, market, sector, 1)
    {
      pending := PendingAt(bm, bs, market, sector, h, pending);
    }
  }

  // ---- In terms of returns and betas ----

  function Times(a: real, b: real): real { a * b }

  /** A stock's return in excess of the market's, held within five percent either way; nothing without a bar. */
  function Held(own: Option<real>, market: real): real {
    if own.None? then 0.0
    else if own.value - market > 0.05 then 0.05
    else if market - own.value > 0.05 then -0.05
    else own.value - market
  }

  /** Those of some stocks that have a bar at a minute. */
  function Present(r: seq<Series>, idx: seq<nat>, t: nat): seq<nat>
    requires Members(idx, |r|) && forall i :: 0 <= i < |r| ==> t < |r[i]|
  {
    if idx == [] then []
    else
      var front := Present(r, idx[..|idx| - 1], t);
      if r[idx[|idx| - 1]][t].Some? then front + [idx[|idx| - 1]] else front
  }

  function HeldSum(r: seq<Series>, market: seq<real>, idx: seq<nat>, t: nat): real
    requires Rectangular(r, market) && Members(idx, |r|) && t < |market|
  {
    if idx == [] then 0.0
    else HeldSum(r, market, idx[..|idx| - 1], t) + Held(r[idx[|idx| - 1]][t], market[t])
  }

  lemma {:induction false} TotalIsHeldSum(r: seq<Series>, market: seq<real>, idx: seq<nat>, t: nat)
    requires Rectangular(r, market) && Members(idx, |r|) && t < |market|
    ensures Total(r, market, idx, t) == HeldSum(r, market, idx, t)
    ensures Count(r, market, idx, t) == |Present(r, idx, t)|
  {
    if idx != [] { TotalIsHeldSum(r, market, idx[..|idx| - 1], t); }
  }

  /** A mean over some stocks: their held excess returns' sum, shared by those with a bar; none if none has. */
  lemma MeanIsShared(r: seq<Series>, market: seq<real>, idx: seq<nat>, t: nat)
    requires Rectangular(r, market) && Members(idx, |r|) && t < |market|
    ensures var m, n := Mean(r, market, idx, t), |Present(r, idx, t)|;
            (m == None <==> n == 0) && (m.Some? ==> Times(n as real, m.value) == HeldSum(r, market, idx, t))
  {
    TotalIsHeldSum(r, market, idx, t);
    var n := Count(r, market, idx, t);
    if n > 0 { Shared(Total(r, market, idx, t), n); }
    hide Total, Count, HeldSum, Present, Times;
  }

  lemma Shared(total: real, n: nat)
    requires n > 0
    ensures Times(n as real, total / n as real) == total
  {
  }

  /** The betas of the lags that a move `age` minutes old has not reached yet. */
  function BetasAhead(beta: seq<real>, age: nat): real
    requires |beta| == LAGS + 1
    decreases LAGS + 1 - age
  {
    if age >= LAGS then 0.0 else beta[age + 1] + BetasAhead(beta, age + 1)
  }

  /** The latest move but `age`, or nothing if the series is not that long or has no value there. */
  function MoveAt(x: Series, age: nat): real {
    if age < |x| && x[|x| - 1 - age].Some? then x[|x| - 1 - age].value else 0.0
  }

  /** What the moves seen so far, from some age on, still have to give. */
  function StillDue(beta: seq<real>, x: Series, age: nat): real
    requires |beta| == LAGS + 1
    decreases LAGS + 1 - age
  {
    if age >= LAGS then 0.0 else Times(BetasAhead(beta, age), MoveAt(x, age)) + StillDue(beta, x, age + 1)
  }

  /** The terms of one minute ahead, from some lag on. */
  function AheadFrom(beta: seq<real>, x: Series, h: nat, lag: nat): real
    requires |beta| == LAGS + 1 && h <= lag
    decreases LAGS + 1 - lag
  {
    if lag > LAGS then 0.0 else Times(beta[lag], MoveAt(x, lag - h)) + AheadFrom(beta, x, h, lag + 1)
  }

  lemma {:induction false} PartAhead(beta: seq<real>, x: Series, h: nat, lag: nat)
    requires |beta| == LAGS + 1 && 1 <= h <= LAGS && h <= lag && x != []
    ensures LagPart(beta, Still(x), |x| - 1 + h, lag) == AheadFrom(beta, x, h, lag)
    decreases LAGS + 1 - lag
  {
    if lag <= LAGS {
      TermAhead(beta, x, h, lag);
      PartAhead(beta, x, h, lag + 1);
      hide Still, LagTerm, Times, MoveAt;
    }
  }

  lemma TermAhead(beta: seq<real>, x: Series, h: nat, lag: nat)
    requires |beta| == LAGS + 1 && 1 <= h <= lag <= LAGS && x != []
    ensures LagTerm(beta, Still(x), |x| - 1 + h, lag) == Times(beta[lag], MoveAt(x, lag - h))
  {
    AheadTerm(x, h, lag);
    hide Still, Lagged;
  }

  /** The betas ahead of one move, each times it. */
  function AheadOf(beta: seq<real>, move: real, lag: nat): real
    requires |beta| == LAGS + 1
    decreases LAGS + 1 - lag
  {
    if lag > LAGS then 0.0 else Times(beta[lag], move) + AheadOf(beta, move, lag + 1)
  }

  lemma {:induction false} BetasTimes(beta: seq<real>, age: nat, move: real)
    requires |beta| == LAGS + 1
    ensures Times(BetasAhead(beta, age), move) == AheadOf(beta, move, age + 1)
    decreases LAGS + 1 - age
  {
    if age < LAGS {
      BetasTimes(beta, age + 1, move);
      Distribute(beta[age + 1], BetasAhead(beta, age + 1), move);
      hide Times;
    }
  }

  lemma Distribute(a: real, b: real, c: real)
    ensures Times(a + b, c) == Times(a, c) + Times(b, c)
    ensures Times(0.0, c) == 0.0
  {
  }

  /** All the terms that minutes `h` and more ahead make. */
  function AllAhead(beta: seq<real>, x: Series, h: nat): real
    requires |beta| == LAGS + 1 && h >= 1
    decreases LAGS + 1 - h
  {
    if h > LAGS then 0.0 else AheadFrom(beta, x, h, h) + AllAhead(beta, x, h + 1)
  }

  /** Adding up by minutes ahead and then lags, or by ages and then lags, is the same. */
  lemma AheadByAge(beta: seq<real>, x: Series)
    requires |beta| == LAGS + 1
    ensures AllAhead(beta, x, 1) == StillDue(beta, x, 0)
  {
    var m0, m1, m2, m3, m4 := MoveAt(x, 0), MoveAt(x, 1), MoveAt(x, 2), MoveAt(x, 3), MoveAt(x, 4);
    BetasTimes(beta, 0, m0);
    BetasTimes(beta, 1, m1);
    BetasTimes(beta, 2, m2);
    BetasTimes(beta, 3, m3);
    BetasTimes(beta, 4, m4);
    RowsWritten(beta, x);
    ColumnsWritten(beta, m0, m1, m2, m3, m4);
    hide Times, AheadOf, AheadFrom, BetasAhead, MoveAt;
    assert StillDue(beta, x, 3) == Times(BetasAhead(beta, 3), m3) + Times(BetasAhead(beta, 4), m4);
    assert AllAhead(beta, x, 4) == AheadFrom(beta, x, 4, 4) + AheadFrom(beta, x, 5, 5);
  }

  lemma RowsWritten(beta: seq<real>, x: Series)
    requires |beta| == LAGS + 1
    ensures AheadFrom(beta, x, 5, 5) == Times(beta[5], MoveAt(x, 0))
    ensures AheadFrom(beta, x, 4, 4) == Times(beta[4], MoveAt(x, 0)) + Times(beta[5], MoveAt(x, 1))
    ensures AheadFrom(beta, x, 3, 3) ==
            Times(beta[3], MoveAt(x, 0)) + Times(beta[4], MoveAt(x, 1)) + Times(beta[5], MoveAt(x, 2))
    ensures AheadFrom(beta, x, 2, 2) ==
            Times(beta[2], MoveAt(x, 0)) + Times(beta[3], MoveAt(x, 1)) + Times(beta[4], MoveAt(x, 2)) +
            Times(beta[5], MoveAt(x, 3))
    ensures AheadFrom(beta, x, 1, 1) ==
            Times(beta[1], MoveAt(x, 0)) + Times(beta[2], MoveAt(x, 1)) + Times(beta[3], MoveAt(x, 2)) +
            Times(beta[4], MoveAt(x, 3)) + Times(beta[5], MoveAt(x, 4))
  {
    hide Times, MoveAt;
    assert AheadFrom(beta, x, 3, 5) == Times(beta[5], MoveAt(x, 2));
    assert AheadFrom(beta, x, 2, 4) == Times(beta[4], MoveAt(x, 2)) + AheadFrom(beta, x, 2, 5);
    assert AheadFrom(beta, x, 2, 5) == Times(beta[5], MoveAt(x, 3));
    assert AheadFrom(beta, x, 1, 3) == Times(beta[3], MoveAt(x, 2)) + AheadFrom(beta, x, 1, 4);
    assert AheadFrom(beta, x, 1, 4) == Times(beta[4], MoveAt(x, 3)) + AheadFrom(beta, x, 1, 5);
    assert AheadFrom(beta, x, 1, 5) == Times(beta[5], MoveAt(x, 4));
  }

  lemma ColumnsWritten(beta: seq<real>, m0: real, m1: real, m2: real, m3: real, m4: real)
    requires |beta| == LAGS + 1
    ensures AheadOf(beta, m4, 5) == Times(beta[5], m4)
    ensures AheadOf(beta, m3, 4) == Times(beta[4], m3) + Times(beta[5], m3)
    ensures AheadOf(beta, m2, 3) == Times(beta[3], m2) + Times(beta[4], m2) + Times(beta[5], m2)
    ensures AheadOf(beta, m1, 2) == Times(beta[2], m1) + Times(beta[3], m1) + Times(beta[4], m1) + Times(beta[5], m1)
    ensures AheadOf(beta, m0, 1) ==
            Times(beta[1], m0) + Times(beta[2], m0) + Times(beta[3], m0) + Times(beta[4], m0) + Times(beta[5], m0)
  {
    hide Times;
    assert AheadOf(beta, m0, 3) == Times(beta[3], m0) + AheadOf(beta, m0, 4);
    assert AheadOf(beta, m0, 4) == Times(beta[4], m0) + AheadOf(beta, m0, 5);
    assert AheadOf(beta, m1, 4) == Times(beta[4], m1) + AheadOf(beta, m1, 5);
    assert AheadOf(beta, m2, 5) == Times(beta[5], m2) + AheadOf(beta, m2, 6);
    assert AheadOf(beta, m3, 5) == Times(beta[5], m3) + AheadOf(beta, m3, 6);
    assert AheadOf(beta, m0, 5) == Times(beta[5], m0) + AheadOf(beta, m0, 6);
    assert AheadOf(beta, m1, 5) == Times(beta[5], m1) + AheadOf(beta, m1, 6);
  }

  lemma {:induction false} ToComeIsAhead(bm: seq<real>, bs: seq<real>, market: Series, sector: Series, h: nat)
    requires |bm| == |bs| == LAGS + 1 && |market| == |sector| > 0 && h >= 1
    ensures StillToCome(bm, bs, market, sector, h) == AllAhead(bm, market, h) + AllAhead(bs, sector, h)
    decreases LAGS + 1 - h
  {
    if h <= LAGS {
      ShortLags(bm, market, h, 0);
      ShortLags(bs, sector, h, 0);
      PartAhead(bm, market, h, h);
      PartAhead(bs, sector, h, h);
      ToComeIsAhead(bm, bs, market, sector, h + 1);
      hide LagPart, AheadFrom;
    }
  }

  /**
   * What is pending, move by move: each of the latest five moves of either factor still gives its size times
   * the betas of all the lags it has not reached yet.
   */
  lemma PendingByAge(bm: seq<real>, bs: seq<real>, market: Series, sector: Series)
    requires |bm| == |bs| == LAGS + 1 && |market| == |sector| > 0
    ensures StillToCome(bm, bs, market, sector, 1) == StillDue(bm, market, 0) + StillDue(bs, sector, 0)
  {
    ToComeIsAhead(bm, bs, market, sector, 1);
    AheadByAge(bm, market);
    AheadByAge(bs, sector);
    hide StillToCome, StillDue, AllAhead;
  }
}
