/** Averages and RSI. */
module Indicators {
  import opened Basics
  import opened RealArithmetic

  /** A column of bars; None where a value is undefined. */
  type Series = seq<Option<real>>

  // ---- Averages seeded by a plain mean ----

  datatype Rule = Ema | Wilder

  /** The weight a new value gets. */
  function Weight(rule: Rule, p: nat): (w: real)
    requires p >= 1
    ensures 0.0 < w <= 1.0
  {
    match rule
    case Ema => 2.0 / (p as real + 1.0)
    case Wilder => 1.0 / p as real
  }

  function Mix(w: real, x: real, before: real): real { w * x + (1.0 - w) * before }

  function Sum(x: Series, n: nat): real
    requires n <= |x|
  {
    if n == 0 then 0.0 else Sum(x, n - 1) + if x[n - 1].Some? then x[n - 1].value else 0.0
  }

  ghost predicate Defined(x: Series, n: nat) { n <= |x| && forall t :: 0 <= t < n ==> x[t].Some? }

  /** The average at a bar, from the values seen so far. */
  ghost function Average(rule: Rule, x: Series, p: nat, t: nat): Option<real>
    requires p >= 1 && t < |x|
  {
    if t < p - 1 then None
    else if t == p - 1 then
      if Defined(x, p) then Some(Sum(x, p) / p as real) else None
    else
      var before := Average(rule, x, p, t - 1);
      if x[t].Some? && before.Some? then Some(Mix(Weight(rule, p), x[t].value, before.value)) else None
  }

  // ---- In terms of the values alone ----

  /**
   * A plain mean at bar `p - 1`, and from then on each value moves the average the same share of the way
   * towards itself, `step` parts of `span`; nothing once a value is missing.
   */
  ghost predicate Smooths(out: Series, x: Series, p: nat, step: real, span: real)
    requires p >= 1
  {
    |out| == |x| && forall t :: 0 <= t < |x| ==> SmoothsAt(out, x, p, step, span, t)
  }

  ghost predicate SmoothsAt(out: Series, x: Series, p: nat, step: real, span: real, t: nat)
    requires p >= 1 && t < |x| == |out|
  {
    if t < p - 1 then out[t] == None
    else if t == p - 1 then
      if Defined(x, p) then out[t].Some? && p as real * out[t].value == Sum(x, p) else out[t] == None
    else if x[t].Some? && out[t - 1].Some? then
      out[t].Some? && span * (out[t].value - out[t - 1].value) == step * (x[t].value - out[t - 1].value)
    else out[t] == None
  }

  function StepOf(rule: Rule): real { if rule == Ema then 2.0 else 1.0 }

  function SpanOf(rule: Rule, p: nat): real { if rule == Ema then p as real + 1.0 else p as real }

  lemma MixMoves(rule: Rule, p: nat, x: real, before: real)
    requires p >= 1
    ensures SpanOf(rule, p) * (Mix(Weight(rule, p), x, before) - before) == StepOf(rule) * (x - before)
  {
    var w, span := Weight(rule, p), SpanOf(rule, p);
    assert w * span == StepOf(rule);
    assert Mix(w, x, before) - before == w * (x - before) by { MixShare(w, x, before); }
    assert span * (w * (x - before)) == (w * span) * (x - before);
  }

  lemma MixShare(w: real, x: real, before: real)
    ensures Mix(w, x, before) - before == w * (x - before)
  {
  }

  lemma FilledSmooths(out: Series, rule: Rule, x: Series, p: nat)
    requires p >= 1 && Filled(out, rule, x, p, |x|)
    ensures Smooths(out, x, p, StepOf(rule), SpanOf(rule, p))
  {
    hide Mix, Weight, StepOf, SpanOf;
    forall t | 0 <= t < |x| ensures SmoothsAt(out, x, p, StepOf(rule), SpanOf(rule, p), t) {
      if t == p - 1 {
        MeanShare(Sum(x, p), p);
      } else if t > p - 1 {
        var before := t - 1;
        assert out[before] == Average(rule, x, p, before);
        if x[t].Some? && out[before].Some? { MixMoves(rule, p, x[t].value, out[before].value); }
      }
    }
  }

  lemma MeanShare(sum: real, p: nat)
    requires p >= 1
    ensures p as real * (sum / p as real) == sum
  {
  }

  function Power(q: real, n: nat): real { if n == 0 then 1.0 else q * Power(q, n - 1) }

  /** A value that is `n` bars old. */
  function Part(q: real, n: nat, v: real): real { (1.0 - q) * Power(q, n) * v }

  /** The values of bars `from` to `to` at a bar `t`, each weighted the less the older it is. */
  function Weighted(x: Series, from: nat, to: nat, t: nat, q: real): real
    requires from <= to <= t + 1 && to <= |x| && Defined(x, to)
  {
    if to == from then 0.0
    else Weighted(x, from, to - 1, t, q) + Part(q, t - (to - 1), x[to - 1].value)
  }

  /** A bar later every weight has shrunk. */
  lemma {:induction false} WeightedShrinks(x: Series, start: nat, to: nat, t: nat, q: real)
    requires start <= to <= t + 1 && to <= |x| && Defined(x, to)
    ensures Weighted(x, start, to, t + 1, q) == q * Weighted(x, start, to, t, q)
  {
    if to > start {
      hide Power, Part, Weighted;
      WeightedShrinks(x, start, to - 1, t, q);
      PartNext(q, t - (to - 1), x[to - 1].value);
      OneMorePart(x, start, to, t, q);
      OneMorePart(x, start, to, t + 1, q);
      Both(q, Weighted(x, start, to - 1, t, q), Part(q, t - (to - 1), x[to - 1].value));
    }
  }

  lemma OneMorePart(x: Series, start: nat, to: nat, t: nat, q: real)
    requires start < to <= t + 1 && to <= |x| && Defined(x, to)
    ensures Weighted(x, start, to, t, q) ==
            Weighted(x, start, to - 1, t, q) + Part(q, t - (to - 1), x[to - 1].value)
  {
  }

  lemma PartNext(q: real, n: nat, v: real)
    ensures Part(q, n + 1, v) == q * Part(q, n, v)
  {
    var a := Power(q, n);
    assert Power(q, n + 1) == q * a;
    assert (1.0 - q) * (q * a) * v == q * ((1.0 - q) * a * v);
  }

  lemma Both(q: real, a: real, b: real)
    ensures q * (a + b) == q * a + q * b
  {
  }

  /** The newest value and all older ones. */
  lemma WeightedNext(x: Series, p: nat, t: nat, q: real, seed: real)
    requires 1 <= p && p <= t < |x| && Defined(x, t + 1)
    ensures Power(q, t - (p - 1)) * seed + Weighted(x, p, t + 1, t, q) ==
            q * (Power(q, t - 1 - (p - 1)) * seed + Weighted(x, p, t, t - 1, q)) + (1.0 - q) * x[t].value
  {
    var a, c := Power(q, t - 1 - (p - 1)), Weighted(x, p, t, t - 1, q);
    WeightedShrinks(x, p, t, t - 1, q);
    NewestPart(x, p, t, q);
    assert Power(q, t - (p - 1)) == q * a;
    hide Power, Weighted;
    Spread(q, a, seed, c);
  }

  lemma NewestPart(x: Series, p: nat, t: nat, q: real)
    requires p <= t < |x| && Defined(x, t + 1)
    ensures Weighted(x, p, t + 1, t, q) == Weighted(x, p, t, t, q) + (1.0 - q) * x[t].value
  {
    assert Part(q, 0, x[t].value) == (1.0 - q) * 1.0 * x[t].value;
    hide Part;
  }

  /**
   * The closed form, for the share that a value leaves of what was before: the mean at bar `p - 1` shrunk once
   * a bar, and every later value with a weight that shrinks once a bar.
   */
  lemma {:induction false} ClosedForm(out: Series, x: Series, p: nat, step: real, span: real, q: real, t: nat)
    requires p >= 1 && Smooths(out, x, p, step, span) && span != 0.0 && q * span == span - step
    requires p - 1 <= t < |x| && Defined(x, t + 1)
    ensures out[t].Some? && out[p - 1].Some?
    ensures out[t].value == Power(q, t - (p - 1)) * out[p - 1].value + Weighted(x, p, t + 1, t, q)
  {
    if t == p - 1 {
      assert SmoothsAt(out, x, p, step, span, t);
      OnlySeed(x, p, q);
    } else {
      hide Power, Weighted, Smooths, SmoothsAt;
      ClosedForm(out, x, p, step, span, q, t - 1);
      NextBar(out, x, p, step, span, q, t);
      WeightedNext(x, p, t, q, out[p - 1].value);
      var seed := out[p - 1].value;
      var inner := Power(q, t - 1 - (p - 1)) * seed + Weighted(x, p, t, t - 1, q);
      Chain(out[t].value, out[t - 1].value, inner, q, x[t].value);
    }
  }

  lemma NextBar(out: Series, x: Series, p: nat, step: real, span: real, q: real, t: nat)
    requires p >= 1 && Smooths(out, x, p, step, span) && span != 0.0 && q * span == span - step
    requires p <= t < |x| && Defined(x, t + 1) && out[t - 1].Some?
    ensures out[t].Some? && out[t].value == q * out[t - 1].value + (1.0 - q) * x[t].value
  {
    assert SmoothsAt(out, x, p, step, span, t);
    MoveOn(out[t].value, out[t - 1].value, x[t].value, step, span, q);
  }

  lemma Chain(after: real, before: real, inner: real, q: real, x: real)
    requires after == q * before + (1.0 - q) * x && before == inner
    ensures after == q * inner + (1.0 - q) * x
  {
  }

  lemma OnlySeed(x: Series, p: nat, q: real)
    requires 1 <= p <= |x| && Defined(x, p)
    ensures Power(q, 0) == 1.0 && Weighted(x, p, p, p - 1, q) == 0.0
  {
  }

  lemma MoveOn(after: real, before: real, x: real, step: real, span: real, q: real)
    requires span != 0.0 && q * span == span - step && span * (after - before) == step * (x - before)
    ensures after == q * before + (1.0 - q) * x
  {
    Swap(span, q, before);
    Swap(span, q, x);
    Two(before, span, step);
    Two(x, span, step);
    assert before * (q * span) == before * (span - step) && x * (q * span) == x * (span - step);
    Steps(span, step, q, after, before, x);
    NoFactor(span, after - q * before - (1.0 - q) * x);
  }

  lemma Steps(span: real, step: real, q: real, after: real, before: real, x: real)
    requires span * (q * before) == span * before - step * before && span * (q * x) == span * x - step * x
    ensures span * (after - q * before - (1.0 - q) * x) == span * (after - before) - step * (x - before)
  {
    var rest := (1.0 - q) * x;
    Two(x, 1.0, q);
    Two(span, after - q * before, rest);
    Two(span, after, q * before);
    Two(span, x, q * x);
    Two(span, after, before);
    Two(step, x, before);
    assert span * rest == span * (x - q * x);
  }

  lemma Swap(a: real, b: real, c: real)
    ensures a * (b * c) == c * (b * a)
  {
  }

  lemma Two(a: real, b: real, c: real)
    ensures a * (b - c) == a * b - a * c
  {
  }

  lemma NoFactor(a: real, b: real)
    requires a != 0.0 && a * b == 0.0
    ensures b == 0.0
  {
  }

  lemma Spread(q: real, a: real, b: real, c: real)
    ensures q * (a * b + c) == q * a * b + q * c
  {
  }

  /** The weights of the mean and of all later values add up to 1. */
  lemma {:induction false} WeightsAreWhole(ones: Series, p: nat, t: nat, q: real)
    requires 1 <= p && p - 1 <= t < |ones| && forall u :: 0 <= u < |ones| ==> ones[u] == Some(1.0)
    ensures Power(q, t - (p - 1)) + Weighted(ones, p, t + 1, t, q) == 1.0
  {
    if t == p - 1 {
      OnlySeed(ones, p, q);
    } else {
      WeightsAreWhole(ones, p, t - 1, q);
      hide Power, Weighted;
      WeightedNext(ones, p, t, q, 1.0);
      var before := Power(q, t - 1 - (p - 1)) + Weighted(ones, p, t, t - 1, q);
      assert before == 1.0 && ones[t].value == 1.0;
    }
  }

  /** An exponential average with period `p` leaves `(p - 1) / (p + 1)` of what was before. */
  lemma EmaClosedForm(out: Series, x: Series, p: nat, t: nat)
    requires p >= 1 && Smooths(out, x, p, 2.0, p as real + 1.0) && p - 1 <= t < |x| && Defined(x, t + 1)
    ensures var q := (p as real - 1.0) / (p as real + 1.0);
            out[t].Some? && out[p - 1].Some? && p as real * out[p - 1].value == Sum(x, p) &&
            out[t].value == Power(q, t - (p - 1)) * out[p - 1].value + Weighted(x, p, t + 1, t, q)
  {
    var q := (p as real - 1.0) / (p as real + 1.0);
    assert q * (p as real + 1.0) == p as real - 1.0;
    ClosedForm(out, x, p, 2.0, p as real + 1.0, q, t);
    assert SmoothsAt(out, x, p, 2.0, p as real + 1.0, p - 1);
  }

  // ---- The loops ----

  method Mean(x: Series, p: nat) returns (m: Option<real>)
    requires 1 <= p <= |x|
    ensures m == if Defined(x, p) then Some(Sum(x, p) / p as real) else None
  {
    var sum := 0.0;
    for t := 0 to p
      invariant Defined(x, t) && sum == Sum(x, t)
    {
      if x[t].None? { return None; }
      sum := sum + x[t].value;
    }
    m := Some(sum / p as real);
  }

  /** The averages of the bars before t, nothing after. */
  ghost predicate Filled(out: Series, rule: Rule, x: Series, p: nat, t: nat)
    requires p >= 1
  {
    |out| == |x| &&
    (forall u :: 0 <= u < |x| && u < t ==> out[u] == Average(rule, x, p, u)) &&
    forall u :: t <= u < |x| ==> out[u] == None
  }

  lemma FillFirst(out: Series, rule: Rule, x: Series, p: nat, first: real)
    requires 1 <= p <= |x| && Defined(x, p) && first == Sum(x, p) / p as real
    requires |out| == |x| && forall u :: 0 <= u < |x| ==> out[u] == None
    ensures Filled(out[p - 1 := Some(first)], rule, x, p, p)
  {
  }

  lemma FillNext(out: Series, rule: Rule, x: Series, p: nat, t: nat, next: Option<real>)
    requires p >= 1 && p <= t < |x| && Filled(out, rule, x, p, t)
    requires next == if x[t].Some? && out[t - 1].Some?
                     then Some(Mix(Weight(rule, p), x[t].value, out[t - 1].value)) else None
    ensures Filled(out[t := next], rule, x, p, t + 1)
  {
    hide Mix, Weight;
    var before := t - 1;
    assert out[before] == Average(rule, x, p, before);
  }

  function EmaNext(p: nat, x: real, before: real): real
    requires p >= 1
  {
    var alpha := 2.0 / (p as real + 1.0);
    alpha * x + (1.0 - alpha) * before
  }

  function WilderNext(p: nat, x: real, before: real): real
    requires p >= 1
  {
    ((p as real - 1.0) * before + x) / p as real
  }

  lemma EmaMix(p: nat, x: real, before: real)
    requires p >= 1
    ensures EmaNext(p, x, before) == Mix(Weight(Ema, p), x, before)
  {
  }

  /** `ema_sma_seed`. */
  method EmaSmaSeed(x: Series, p: nat) returns (out: Series)
    requires p >= 1
    ensures Filled(out, Ema, x, p, |x|)
    ensures Smooths(out, x, p, 2.0, p as real + 1.0)
  {
    hide Smooths;
    out := seq(|x|, _ => None);
    if |x| < p {
      FilledSmooths(out, Ema, x, p);
      return;
    }
    var first := Mean(x, p);
    if first.None? {
      NeverStarts(Ema, x, p);
      FilledSmooths(out, Ema, x, p);
      return;
    }
    FillFirst(out, Ema, x, p, first.value);
    out := out[p - 1 := first];
    for t := p to |x|
      invariant Filled(out, Ema, x, p, t)
    {
      hide Average, Mix, Weight, EmaNext;
      if x[t].Some? && out[t - 1].Some? {
        var next := Some(EmaNext(p, x[t].value, out[t - 1].value));
        EmaMix(p, x[t].value, out[t - 1].value);
        FillNext(out, Ema, x, p, t, next);
        out := out[t := next];
      } else {
        FillNext(out, Ema, x, p, t, None);
        assert out[t := None] == out;
      }
    }
    FilledSmooths(out, Ema, x, p);
  }

  /** `wilder_rma`. */
  method WilderRma(x: Series, p: nat) returns (out: Series)
    requires p >= 1
    ensures Filled(out, Wilder, x, p, |x|)
    ensures Smooths(out, x, p, 1.0, p as real)
  {
    hide Smooths;
    out := seq(|x|, _ => None);
    if |x| < p {
      FilledSmooths(out, Wilder, x, p);
      return;
    }
    var first := Mean(x, p);
    if first.None? {
      NeverStarts(Wilder, x, p);
      FilledSmooths(out, Wilder, x, p);
      return;
    }
    FillFirst(out, Wilder, x, p, first.value);
    out := out[p - 1 := first];
    for t := p to |x|
      invariant Filled(out, Wilder, x, p, t)
    {
      hide Average, Mix, Weight, WilderNext;
      if x[t].Some? && out[t - 1].Some? {
        WilderMix(p, x[t].value, out[t - 1].value);
        var next := Some(WilderNext(p, x[t].value, out[t - 1].value));
        FillNext(out, Wilder, x, p, t, next);
        out := out[t := next];
      } else {
        FillNext(out, Wilder, x, p, t, None);
        assert out[t := None] == out;
      }
    }
    FilledSmooths(out, Wilder, x, p);
  }

  lemma WilderMix(p: nat, x: real, before: real)
    requires p >= 1
    ensures WilderNext(p, x, before) == Mix(Weight(Wilder, p), x, before)
  {
    var w := 1.0 / p as real;
    assert w * p as real == 1.0;
    assert ((p as real - 1.0) * before + x) / p as real == ((p as real - 1.0) * before + x) * w;
    assert (p as real - 1.0) * before * w == (w * p as real) * before - w * before;
  }

  lemma {:induction false} NeverStartsAt(rule: Rule, x: Series, p: nat, t: nat)
    requires p >= 1 && t < |x| && !Defined(x, p)
    ensures Average(rule, x, p, t) == None
  {
    if t > p - 1 { NeverStartsAt(rule, x, p, t - 1); }
  }

  lemma NeverStarts(rule: Rule, x: Series, p: nat)
    requires p >= 1 && !Defined(x, p)
    ensures forall t :: 0 <= t < |x| ==> Average(rule, x, p, t) == None
  {
    forall t | 0 <= t < |x| ensures Average(rule, x, p, t) == None { NeverStartsAt(rule, x, p, t); }
  }

  /** One undefined value ends the average for good. */
  lemma {:induction false} DefinedExactlyWhen(rule: Rule, x: Series, p: nat, t: nat)
    requires p >= 1 && t < |x|
    ensures Average(rule, x, p, t).Some? <==> t >= p - 1 && Defined(x, t + 1)
  {
    if t > p - 1 { DefinedExactlyWhen(rule, x, p, t - 1); }
  }

  ghost predicate Bounds(x: Series, n: nat, low: real, high: real)
    requires n <= |x|
  {
    forall t :: 0 <= t < n && x[t].Some? ==> low <= x[t].value <= high
  }

  lemma {:induction false} SumWithin(x: Series, n: nat, low: real, high: real)
    requires Defined(x, n) && Bounds(x, n, low, high)
    ensures low * n as real <= Sum(x, n) <= high * n as real
  {
    if n > 0 {
      SumWithin(x, n - 1, low, high);
      OneMoreTime(low, n);
      OneMoreTime(high, n);
    }
  }

  lemma OneMoreTime(v: real, n: nat)
    requires n > 0
    ensures v * n as real == v * (n - 1) as real + v
  {
    assert n as real == (n - 1) as real + 1.0;
  }

  lemma WeightsAddUp(v: real, w: real)
    ensures v * w + v * (1.0 - w) == v
  {
  }

  lemma PartsWithin(a: real, b: real, w: real, low: real, high: real)
    requires low * w <= a <= high * w && low * (1.0 - w) <= b <= high * (1.0 - w)
    ensures low <= a + b <= high
  {
    WeightsAddUp(low, w);
    WeightsAddUp(high, w);
  }

  lemma MixWithin(w: real, x: real, before: real, low: real, high: real)
    requires 0.0 < w <= 1.0 && low <= x <= high && low <= before <= high
    ensures low <= Mix(w, x, before) <= high
  {
    Scale(low, x, w);
    Scale(x, high, w);
    Scale(low, before, 1.0 - w);
    Scale(before, high, 1.0 - w);
    PartsWithin(x * w, before * (1.0 - w), w, low, high);
  }

  /** An average stays within the range of the values seen so far. */
  lemma {:induction false} AverageWithinRange(rule: Rule, x: Series, p: nat, t: nat, low: real, high: real)
    requires p >= 1 && t < |x| && Bounds(x, t + 1, low, high)
    ensures var a := Average(rule, x, p, t); a.Some? ==> low <= a.value <= high
  {
    hide Mix;
    if t == p - 1 && Defined(x, p) {
      SumWithin(x, p, low, high);
      Quotient(low, Sum(x, p), high, p as real);
    } else if t > p - 1 {
      AverageWithinRange(rule, x, p, t - 1, low, high);
      var before := Average(rule, x, p, t - 1);
      if x[t].Some? && before.Some? { MixWithin(Weight(rule, p), x[t].value, before.value, low, high); }
    }
  }

  /** And it never looks ahead: bars to come change nothing. */
  lemma {:induction false} AverageIsCausal(rule: Rule, x: Series, more: Series, p: nat, t: nat)
    requires p >= 1 && t < |x|
    ensures Average(rule, x + more, p, t) == Average(rule, x, p, t)
  {
    if t == p - 1 {
      SumIsCausal(x, more, p);
      assert forall u :: 0 <= u < p ==> (x + more)[u] == x[u];
    } else if t > p - 1 {
      AverageIsCausal(rule, x, more, p, t - 1);
    }
  }

  lemma {:induction false} SumIsCausal(x: Series, more: Series, n: nat)
    requires n <= |x|
    ensures Sum(x + more, n) == Sum(x, n)
  {
    if n > 0 { SumIsCausal(x, more, n - 1); }
  }

  // ---- RSI ----

  function Delta(close: Series, t: nat): Option<real>
    requires t + 1 < |close|
  {
    if close[t].Some? && close[t + 1].Some? then Some(close[t + 1].value - close[t].value) else None
  }

  function Gain(d: Option<real>): Option<real> { if d.Some? then Some(MaxReal(d.value, 0.0)) else None }

  function Loss(d: Option<real>): Option<real> { if d.Some? then Some(-MinReal(d.value, 0.0)) else None }

  function Gains(close: Series): (g: Series)
    requires close != []
    ensures |g| == |close| - 1
  {
    seq(|close| - 1, t requires 0 <= t < |close| - 1 => Gain(Delta(close, t)))
  }

  function Losses(close: Series): (l: Series)
    requires close != []
    ensures |l| == |close| - 1
  {
    seq(|close| - 1, t requires 0 <= t < |close| - 1 => Loss(Delta(close, t)))
  }

  /** The index from the two averages. */
  function Strength(gain: Option<real>, loss: Option<real>): Option<real> {
    if gain.None? || loss.None? then None
    else if loss.value == 0.0 then
      if gain.value > 0.0 then Some(100.0) else if gain.value == 0.0 then Some(50.0) else None
    else
      var rs := gain.value / loss.value;
      if 1.0 + rs == 0.0 then None else Some(100.0 - 100.0 / (1.0 + rs))
  }

  /** The RSI of a bar. */
  ghost function Rsi(close: Series, p: nat, t: nat): Option<real>
    requires p >= 1 && t < |close|
  {
    if t == 0 then None
    else Strength(Average(Wilder, Gains(close), p, t - 1), Average(Wilder, Losses(close), p, t - 1))
  }

  /** `rsi_wilder`. */
  method RsiWilder(close: Series, p: nat) returns (rsi: Series)
    requires p >= 1
    ensures |rsi| == |close| && forall t :: 0 <= t < |close| ==> rsi[t] == Rsi(close, p, t)
    ensures close != [] ==>
      Moves(close, Gains(close), Losses(close)) && Shares(close, p, rsi, Gains(close), Losses(close))
  {
    if close == [] { return []; }
    hide Smooths, Filled, Strength, Moves;
    var gains := WilderRma(Gains(close), p);
    var losses := WilderRma(Losses(close), p);
    FilledIs(gains, Gains(close), p);
    FilledIs(losses, Losses(close), p);
    rsi := [None] + seq(|close| - 1, t requires 0 <= t < |close| - 1 => Strength(gains[t], losses[t]));
    MovesOf(close);
    RsiShares(close, p, rsi, gains, losses);
  }

  lemma FilledIs(out: Series, x: Series, p: nat)
    requires p >= 1 && Filled(out, Wilder, x, p, |x|)
    ensures |out| == |x| && forall u :: 0 <= u < |x| ==> out[u] == Average(Wilder, x, p, u)
  {
  }

  /** Gains and losses as a share: RSI is gain over gain plus loss. */
  lemma StrengthIsShare(gain: real, loss: real)
    requires gain >= 0.0 && loss >= 0.0
    ensures var s := Strength(Some(gain), Some(loss));
            s.Some? && 0.0 <= s.value <= 100.0 &&
            s.value * (gain + loss) == 100.0 * gain && (gain == 0.0 && loss == 0.0 ==> s.value == 50.0)
  {
    if loss > 0.0 {
      var rs := gain / loss;
      assert rs * loss == gain;
      Quotient(0.0, gain, rs, loss);
      var inverse := 100.0 / (1.0 + rs);
      assert inverse * (1.0 + rs) == 100.0;
      assert (1.0 + rs) * loss == loss + gain;
      assert inverse * (loss + gain) == 100.0 * loss;
      Scale(1.0, 1.0 + rs, 100.0);
      Quotient(0.0, 100.0, 100.0, 1.0 + rs);
    }
  }

  /** How far each close lies above the one before, or below it, and never less than nothing. */
  ghost predicate Moves(close: Series, up: Series, down: Series) {
    close != [] && |up| == |down| == |close| - 1 &&
    forall t: nat :: t < |up| ==> MovesAt(close, up, down, t)
  }

  ghost predicate MovesAt(close: Series, up: Series, down: Series, t: nat)
    requires t + 1 < |close| && t < |up| && t < |down|
  {
    if close[t].None? || close[t + 1].None? then up[t] == None && down[t] == None
    else
      var before, after := close[t].value, close[t + 1].value;
      up[t] == Some(if after > before then after - before else 0.0) &&
      down[t] == Some(if after < before then before - after else 0.0)
  }

  /**
   * The index of each bar is what the smoothed rises are of smoothed rises and falls together, in percent, and
   * 50 if there was neither.
   */
  ghost predicate Shares(close: Series, p: nat, rsi: Series, up: Series, down: Series)
    requires p >= 1
  {
    |rsi| == |close| == |up| + 1 == |down| + 1 && rsi[0] == None &&
    exists u, d :: Smooths(u, up, p, 1.0, p as real) && Smooths(d, down, p, 1.0, p as real) && SharesOf(rsi, u, d)
  }

  ghost predicate SharesOf(rsi: Series, u: Series, d: Series) {
    |rsi| == |u| + 1 == |d| + 1 && forall t: nat :: t < |u| ==> ShareAt(rsi, u, d, t)
  }

  ghost predicate ShareAt(rsi: Series, u: Series, d: Series, t: nat)
    requires t < |u| == |d| && |rsi| == |u| + 1
  {
    if u[t].None? || d[t].None? then rsi[t + 1] == None
    else
      rsi[t + 1].Some? && rsi[t + 1].value * (u[t].value + d[t].value) == 100.0 * u[t].value &&
      (u[t].value == 0.0 && d[t].value == 0.0 ==> rsi[t + 1].value == 50.0)
  }

  lemma MovesOf(close: Series)
    requires close != []
    ensures Moves(close, Gains(close), Losses(close))
  {
    forall t: nat | t < |close| - 1 ensures MovesAt(close, Gains(close), Losses(close), t) {}
  }

  lemma RsiShares(close: Series, p: nat, rsi: Series, u: Series, d: Series)
    requires p >= 1 && close != [] && |rsi| == |close| && rsi[0] == None
    requires Filled(u, Wilder, Gains(close), p, |close| - 1) && Filled(d, Wilder, Losses(close), p, |close| - 1)
    requires forall t: nat :: t < |u| && t < |d| && t + 1 < |rsi| ==> rsi[t + 1] == Strength(u[t], d[t])
    ensures SharesOf(rsi, u, d)
  {
    hide Average, Strength;
    forall t: nat | t < |u| ensures ShareAt(rsi, u, d, t) {
      GainsNotNegative(close);
      AverageNotNegative(Gains(close), p, t);
      AverageNotNegative(Losses(close), p, t);
      if u[t].Some? && d[t].Some? { StrengthIsShare(u[t].value, d[t].value); } else { StrengthUnknown(u[t], d[t]); }
    }
  }

  lemma GainsNotNegative(close: Series)
    requires close != []
    ensures forall t :: 0 <= t < |close| - 1 && Gains(close)[t].Some? ==> 0.0 <= Gains(close)[t].value
    ensures forall t :: 0 <= t < |close| - 1 && Losses(close)[t].Some? ==> 0.0 <= Losses(close)[t].value
  {
  }

  lemma {:induction false} AverageNotNegative(x: Series, p: nat, t: nat)
    requires p >= 1 && t < |x|
    requires forall u :: 0 <= u < |x| && x[u].Some? ==> 0.0 <= x[u].value
    ensures var a := Average(Wilder, x, p, t); a.Some? ==> 0.0 <= a.value
  {
    var high := Ceiling(x, t + 1);
    AverageWithinRange(Wilder, x, p, t, 0.0, high);
  }

  lemma {:induction false} Ceiling(x: Series, n: nat) returns (high: real)
    requires n <= |x|
    ensures forall u :: 0 <= u < n && x[u].Some? ==> x[u].value <= high
  {
    if n == 0 {
      high := 0.0;
    } else {
      var before := Ceiling(x, n - 1);
      high := if x[n - 1].Some? then MaxReal(before, x[n - 1].value) else before;
    }
  }

  /** RSI lies in 0..100, and is defined exactly once p changes in a row are known from the first bar on. */
  lemma RsiInRange(close: Series, p: nat, t: nat)
    requires p >= 1 && t < |close|
    ensures var r := Rsi(close, p, t);
            (r.Some? ==> 0.0 <= r.value <= 100.0) && (r.Some? <==> t >= p && Defined(close, t + 1))
  {
    hide Average, Strength;
    if t > 0 {
      var g, l := Gains(close), Losses(close);
      DefinedExactlyWhen(Wilder, g, p, t - 1);
      DefinedExactlyWhen(Wilder, l, p, t - 1);
      ChangesKnown(close, t);
      GainsNotNegative(close);
      AverageNotNegative(g, p, t - 1);
      AverageNotNegative(l, p, t - 1);
      var gain, loss := Average(Wilder, g, p, t - 1), Average(Wilder, l, p, t - 1);
      if gain.Some? && loss.Some? { StrengthIsShare(gain.value, loss.value); } else { StrengthUnknown(gain, loss); }
    }
  }

  lemma StrengthUnknown(gain: Option<real>, loss: Option<real>)
    requires gain.None? || loss.None?
    ensures Strength(gain, loss) == None
  {
  }

  lemma ChangesKnown(close: Series, t: nat)
    requires 0 < t < |close|
    ensures Defined(Gains(close), t) <==> Defined(close, t + 1)
    ensures Defined(Losses(close), t) <==> Defined(close, t + 1)
  {
    if Defined(Gains(close), t) || Defined(Losses(close), t) {
      forall u | 0 <= u < t + 1 ensures close[u].Some? {
        var known := if u < t then u else t - 1;
        assert Gains(close)[known].Some? == Losses(close)[known].Some?;
      }
    }
  }

  /** The same prices upside down. */
  function Mirror(close: Series): (m: Series)
    ensures |m| == |close|
  {
    seq(|close|, t requires 0 <= t < |close| => if close[t].Some? then Some(-close[t].value) else None)
  }

  /** Turning the prices upside down turns RSI r into 100 - r. */
  lemma RsiMirrors(close: Series, p: nat, t: nat)
    requires p >= 1 && t < |close|
    ensures var r, m := Rsi(close, p, t), Rsi(Mirror(close), p, t);
            (r.Some? <==> m.Some?) && (r.Some? ==> m.value == 100.0 - r.value)
  {
    hide Average, Strength;
    if t > 0 {
      MirrorSwaps(close);
      var g, l := Gains(close), Losses(close);
      GainsNotNegative(close);
      AverageNotNegative(g, p, t - 1);
      AverageNotNegative(l, p, t - 1);
      var gain, loss := Average(Wilder, g, p, t - 1), Average(Wilder, l, p, t - 1);
      if gain.Some? && loss.Some? {
        SharesAddUp(gain.value, loss.value);
      } else {
        StrengthUnknown(gain, loss);
        StrengthUnknown(loss, gain);
      }
    }
  }

  lemma MirrorSwaps(close: Series)
    requires close != []
    ensures Gains(Mirror(close)) == Losses(close) && Losses(Mirror(close)) == Gains(close)
  {
  }

  lemma SharesAddUp(gain: real, loss: real)
    requires gain >= 0.0 && loss >= 0.0
    ensures var s, m := Strength(Some(gain), Some(loss)), Strength(Some(loss), Some(gain));
            s.Some? && m.Some? && m.value == 100.0 - s.value
  {
    hide Strength;
    StrengthIsShare(gain, loss);
    StrengthIsShare(loss, gain);
    var s, m := Strength(Some(gain), Some(loss)).value, Strength(Some(loss), Some(gain)).value;
    if gain + loss > 0.0 {
      assert (s + m) * (gain + loss) == 100.0 * (gain + loss);
      if s + m < 100.0 { Stretch(s + m, 100.0, gain + loss); }
      if s + m > 100.0 { Stretch(100.0, s + m, gain + loss); }
    }
  }
}
