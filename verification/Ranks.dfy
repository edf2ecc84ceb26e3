/** Average ranks and what they determine. */
module Ranks {
  import opened Basics
  import opened IndexSort
  import opened RealArithmetic

  function Less(x: seq<real>, v: real): nat {
    if x == [] then 0 else Less(x[..|x| - 1], v) + (if x[|x| - 1] < v then 1 else 0)
  }

  function Equal(x: seq<real>, v: real): nat {
    if x == [] then 0 else Equal(x[..|x| - 1], v) + (if x[|x| - 1] == v then 1 else 0)
  }

  /** The counting definition: how many are smaller, plus half of one more than how many are equal. */
  function Rank(x: seq<real>, v: real): real { Less(x, v) as real + (Equal(x, v) as real + 1.0) / 2.0 }

  // ---- Counting along an order ----

  /** The values in sorted order. */
  function Arranged(x: seq<real>, order: seq<int>): seq<real>
    requires forall k :: 0 <= k < |order| ==> 0 <= order[k] < |x|
  {
    seq(|order|, k requires 0 <= k < |order| => x[order[k]])
  }

  lemma {:induction false} CountConcat(a: seq<real>, b: seq<real>, v: real)
    ensures Less(a + b, v) == Less(a, v) + Less(b, v) && Equal(a + b, v) == Equal(a, v) + Equal(b, v)
  {
    if b == [] {
      assert a + b == a;
    } else {
      assert (a + b)[..|a + b| - 1] == a + b[..|b| - 1];
      CountConcat(a, b[..|b| - 1], v);
    }
  }

  /** Arranging values in any order leaves every count as it is. */
  lemma {:induction false} CountsArranged(x: seq<real>, order: seq<int>, v: real)
    requires Indices(order, |x|)
    ensures Less(Arranged(x, order), v) == Less(x, v) && Equal(Arranged(x, order), v) == Equal(x, v)
    decreases |x|
  {
    if x == [] {
      assert Arranged(x, order) == [];
    } else {
      var n := |x| - 1;
      assert n in order;
      var at :| 0 <= at < |order| && order[at] == n;
      var rest := order[..at] + order[at + 1..];
      WithoutLast(order, at, n);
      CountsArranged(x[..n], rest, v);
      RemoveOne(x, order, at, v);
    }
  }

  lemma RemoveOne(x: seq<real>, order: seq<int>, at: nat, v: real)
    requires Indices(order, |x|) && at < |order| && order[at] == |x| - 1
    requires Indices(order[..at] + order[at + 1..], |x| - 1)
    ensures var rest := Arranged(x[..|x| - 1], order[..at] + order[at + 1..]);
            var u := x[|x| - 1];
            Less(Arranged(x, order), v) == Less(rest, v) + (if u < v then 1 else 0) &&
            Equal(Arranged(x, order), v) == Equal(rest, v) + (if u == v then 1 else 0)
  {
    hide Less, Equal;
    var n, rest := |x| - 1, order[..at] + order[at + 1..];
    var a := Arranged(x, order);
    var front, back := a[..at], a[at + 1..];
    assert a == front + [x[n]] + back;
    assert Arranged(x[..n], rest) == front + back;
    CountConcat(front, [x[n]], v);
    CountConcat(front + [x[n]], back, v);
    CountConcat(front, back, v);
    CountOne(x[n], v);
  }

  lemma CountOne(u: real, v: real)
    ensures Less([u], v) == (if u < v then 1 else 0) && Equal([u], v) == if u == v then 1 else 0
  {
    assert [u][..0] == [];
  }

  lemma WithoutLast(order: seq<int>, at: nat, n: nat)
    requires Indices(order, n + 1) && at < |order| && order[at] == n
    ensures Indices(order[..at] + order[at + 1..], n)
  {
    var rest := order[..at] + order[at + 1..];
    assert forall k :: 0 <= k < |rest| ==> rest[k] == order[if k < at then k else k + 1];
    forall i | 0 <= i < n ensures i in rest {
      assert i in order;
      var k :| 0 <= k < |order| && order[k] == i;
      assert rest[if k < at then k else k - 1] == i;
    }
  }

  /** In a rising list whose run of `v` is exactly `a..b`, `a` values are smaller and `b - a` equal. */
  lemma {:induction false} CountsOfRun(s: seq<real>, v: real, a: nat, b: nat)
    requires a <= b <= |s|
    requires forall k :: 0 <= k < a ==> s[k] < v
    requires forall k :: a <= k < b ==> s[k] == v
    requires forall k :: b <= k < |s| ==> s[k] > v
    ensures Less(s, v) == a && Equal(s, v) == b - a
  {
    if s != [] {
      var init := s[..|s| - 1];
      if b == |s| && a == b {
        CountsOfRun(init, v, a - 1, b - 1);
      } else if b == |s| {
        CountsOfRun(init, v, a, b - 1);
      } else {
        CountsOfRun(init, v, a, b);
      }
    }
  }

  /** 1-based ranks, tied values sharing the mean of theirs. */
  method AverageRanks(x: seq<real>) returns (ranks: seq<real>)
    ensures |ranks| == |x|
    ensures forall i :: 0 <= i < |x| ==> ranks[i] == Rank(x, x[i])
  {
    var n := |x|;
    var order := SortIndices(x);
    var out := new real[n];
    var a := 0;
    while a < n
      invariant 0 <= a <= n
      invariant 0 < a < n ==> x[order[a - 1]] < x[order[a]]
      invariant forall k :: 0 <= k < a ==> out[order[k]] == Rank(x, x[order[k]])
    {
      var b := a + 1;
      while b < n && x[order[b]] == x[order[a]]
        invariant a < b <= n
        invariant forall k :: a <= k < b ==> x[order[k]] == x[order[a]]
      {
        b := b + 1;
      }
      RunRank(x, order, a, b);
      var k := a;
      while k < b
        invariant a <= k <= b
        invariant forall j :: 0 <= j < k ==> out[order[j]] == Rank(x, x[order[j]])
      {
        out[order[k]] := ((a + 1 + b) as real) / 2.0;
        k := k + 1;
      }
      a := b;
    }
    ranks := out[..];
    forall i | 0 <= i < n ensures ranks[i] == Rank(x, x[i]) { assert i in order; }
  }

  /** A maximal run of equal values at positions `a..b` of the order has the mean of its positions' ranks. */
  lemma RunRank(x: seq<real>, order: seq<int>, a: nat, b: nat)
    requires Indices(order, |x|) && Ascending(x, order) && a < b <= |x|
    requires a > 0 ==> x[order[a - 1]] < x[order[a]]
    requires forall k :: a <= k < b ==> x[order[k]] == x[order[a]]
    requires b < |x| ==> x[order[b]] != x[order[a]]
    ensures Rank(x, x[order[a]]) == ((a + 1 + b) as real) / 2.0
  {
    var s, v := Arranged(x, order), x[order[a]];
    forall k | 0 <= k < a ensures s[k] < v { assert x[order[k]] <= x[order[a - 1]]; }
    forall k | b <= k < |s| ensures s[k] > v { assert x[order[a]] <= x[order[b]] <= x[order[k]]; }
    CountsOfRun(s, v, a, b);
    CountsArranged(x, order, v);
  }

  // ---- What the ranks add up to ----

  /** Sum of the ranks, within `x`, of the values of `y`. */
  function RankSum(x: seq<real>, y: seq<real>): real {
    if y == [] then 0.0 else RankSum(x, y[..|y| - 1]) + Rank(x, y[|y| - 1])
  }

  /** Pairs of which the first exceeds the second, ties counting half. */
  function Wins(m: seq<real>, base: seq<real>): real {
    if m == [] then 0.0
    else Wins(m[..|m| - 1], base) + Less(base, m[|m| - 1]) as real + Equal(base, m[|m| - 1]) as real / 2.0
  }

  lemma RankOfPool(m: seq<real>, base: seq<real>, v: real)
    ensures Rank(m + base, v) == Rank(m, v) + Less(base, v) as real + Equal(base, v) as real / 2.0
  {
    CountConcat(m, base, v);
  }

  lemma {:induction false} RankSumOfPool(m: seq<real>, base: seq<real>, y: seq<real>)
    ensures RankSum(m + base, y) == RankSum(m, y) + Wins(y, base)
  {
    if y != [] {
      RankSumOfPool(m, base, y[..|y| - 1]);
      RankOfPool(m, base, y[|y| - 1]);
    }
  }

  /** A new value raises the ranks above it by one and those equal to it by a half. */
  lemma {:induction false} RankSumGrows(x: seq<real>, u: real, y: seq<real>)
    ensures RankSum(x + [u], y) == RankSum(x, y) + |y| as real - Less(y, u) as real - Equal(y, u) as real / 2.0
  {
    if y != [] {
      var v := y[|y| - 1];
      RankSumGrows(x, u, y[..|y| - 1]);
      CountConcat(x, [u], v);
      CountOne(u, v);
    }
  }

  /** Ranks of n values add up to n(n + 1)/2, whatever the ties. */
  lemma {:induction false} RanksAddUp(x: seq<real>)
    ensures RankSum(x, x) == (|x| * (|x| + 1)) as real / 2.0
  {
    if x != [] {
      var init, u := x[..|x| - 1], x[|x| - 1];
      RanksAddUp(init);
      assert x == init + [u];
      RankSumGrows(init, u, init);
      CountConcat(init, [u], u);
      CountOne(u, u);
      var n := |init|;
      assert RankSum(x, x) == RankSum(x, init) + Rank(x, u);
      assert (n + 1) * (n + 2) == n * (n + 1) + 2 * (n + 1);
    }
  }

  // ---- Percentile and separation ----

  /** The values of a column that are numbers. */
  function Finite(x: seq<Option<real>>): seq<real> {
    if x == [] then []
    else Finite(x[..|x| - 1]) + if x[|x| - 1].Some? then [x[|x| - 1].value] else []
  }

  method FiniteOf(x: seq<Option<real>>) returns (values: seq<real>)
    ensures values == Finite(x)
  {
    values := [];
    for i := 0 to |x|
      invariant values == Finite(x[..i])
    {
      assert x[..i + 1][..i] == x[..i];
      if x[i].Some? { values := values + [x[i].value]; }
    }
    assert x[..|x|] == x;
  }

  /** Where a cell's value stands among the values that are numbers. */
  lemma {:induction false} FiniteAt(x: seq<Option<real>>, i: nat)
    requires i < |x| && x[i].Some?
    ensures |Finite(x[..i])| < |Finite(x)| && Finite(x)[|Finite(x[..i])|] == x[i].value
  {
    var last := |x| - 1;
    if i < last {
      FiniteAt(x[..last], i);
      assert x[..last][..i] == x[..i];
    } else {
      assert x[..i] == x[..last];
    }
  }

  /** `_percentile`: None without a value or below five sample values. */
  function Percentile(v: Option<real>, sample: seq<Option<real>>): Option<real> {
    var s := Finite(sample);
    if v.None? || |s| < 5 then None
    else Some((Less(s, v.value) as real + 0.5 * Equal(s, v.value) as real) / |s| as real)
  }

  function PctOf(x: seq<Option<real>>, v: Option<real>): Option<real> {
    if v.None? || Finite(x) == [] then None else Some((Rank(Finite(x), v.value) - 0.5) / |Finite(x)| as real)
  }

  /** `_pct_rank`: a cell that is no number gets no rank, every other its percentile among the numbers. */
  method PctRank(x: seq<Option<real>>) returns (p: seq<Option<real>>)
    ensures |p| == |x|
    ensures forall i :: 0 <= i < |x| ==> (p[i].None? <==> x[i].None?)
    ensures forall i :: 0 <= i < |x| && p[i].Some? ==> 0.0 < p[i].value < 1.0
    ensures forall i :: 0 <= i < |x| && |Finite(x)| >= 5 ==> Percentile(x[i], x) == p[i]
  {
    var valid := FiniteOf(x);
    var ranks := AverageRanks(valid);
    p := [];
    var at := 0;
    for i := 0 to |x|
      invariant |p| == i && at == |Finite(x[..i])|
      invariant forall j :: 0 <= j < i ==> p[j] == PctOf(x, x[j])
    {
      assert x[..i + 1][..i] == x[..i];
      if x[i].Some? {
        FiniteAt(x, i);
        p := p + [Some((ranks[at] - 0.5) / |valid| as real)];
        at := at + 1;
      } else {
        p := p + [None];
      }
    }
    forall i | 0 <= i < |x| ensures (p[i].None? <==> x[i].None?) && (p[i].Some? ==> 0.0 < p[i].value < 1.0) {
      if x[i].Some? {
        FiniteAt(x, i);
        RankBounds(Finite(x), |Finite(x[..i])|);
      }
    }
  }

  lemma {:induction false} CountsWithin(x: seq<real>, v: real)
    ensures Less(x, v) + Equal(x, v) <= |x|
    ensures v in x ==> Equal(x, v) >= 1
  {
    if x != [] {
      CountsWithin(x[..|x| - 1], v);
      assert x == x[..|x| - 1] + [x[|x| - 1]];
    }
  }

  lemma RankBounds(x: seq<real>, i: nat)
    requires i < |x|
    ensures 0.0 < (Rank(x, x[i]) - 0.5) / |x| as real < 1.0
  {
    CountsWithin(x, x[i]);
    ProperFraction(Rank(x, x[i]) - 0.5, |x| as real);
  }

  lemma Between(q: real, n: real, r: real)
    requires 0.0 < r < n && q * n == r
    ensures 0.0 < q < 1.0
  {
    if q >= 1.0 { Scale(1.0, q, n); }
    if q <= 0.0 { Scale(q, 0.0, n); }
  }

  lemma ProperFraction(r: real, n: real)
    requires 0.0 < r < n
    ensures 0.0 < r / n < 1.0
  {
    var q := r / n;
    assert q * n == r;
    Between(q, n, r);
  }

  /** The share of pairs whose matched value is the higher one, ties counting half; None without a pair. */
  ghost predicate IsSeparation(p: Option<real>, matched: seq<real>, base: seq<real>) {
    (p.None? <==> matched == [] || base == []) &&
    (p.Some? ==> p.value * (|matched| * |base|) as real == Wins(matched, base))
  }

  /** `_separation`: how often a matched outcome exceeds a base-rate outcome, among those that are numbers. */
  method Separation(matched: seq<Option<real>>, base: seq<Option<real>>) returns (p: Option<real>)
    ensures IsSeparation(p, Finite(matched), Finite(base))
  {
    hide IsSeparation;
    var matchedValues := FiniteOf(matched);
    var baseValues := FiniteOf(base);
    p := SeparationOfValues(matchedValues, baseValues);
  }

  method SeparationOfValues(matched: seq<real>, base: seq<real>) returns (p: Option<real>)
    ensures IsSeparation(p, matched, base)
  {
    if matched == [] || base == [] { return None; }
    var greater, ties := 0, 0;
    for i := 0 to |matched|
      invariant greater as real + ties as real / 2.0 == Wins(matched[..i], base)
    {
      assert matched[..i + 1][..i] == matched[..i];
      var g, t := 0, 0;
      for j := 0 to |base|
        invariant g == Less(base[..j], matched[i]) && t == Equal(base[..j], matched[i])
      {
        assert base[..j + 1][..j] == base[..j];
        if matched[i] > base[j] { g := g + 1; }
        if matched[i] == base[j] { t := t + 1; }
      }
      assert base[..|base|] == base;
      greater, ties := greater + g, ties + t;
    }
    assert matched[..|matched|] == matched;
    var pairs := (|matched| * |base|) as real;
    p := Some(greater as real / pairs + 0.5 * (ties as real / pairs));
    SharesOfPairs(greater as real, ties as real, pairs);
  }

  lemma SharesOfPairs(g: real, t: real, n: real)
    requires n > 0.0
    ensures (g / n + 0.5 * (t / n)) * n == g + t / 2.0
  {
    assert g / n * n == g && t / n * n == t;
    assert (g / n + 0.5 * (t / n)) * n == g / n * n + 0.5 * (t / n * n);
  }

  /**
   * The rank-sum identity: pool both samples, add up the matched values' ranks and take off the
   * least they could be; what remains is the number of pairs times the separation.
   */
  lemma SeparationFromRanks(matched: seq<real>, base: seq<real>)
    ensures RankSum(matched + base, matched) - (|matched| * (|matched| + 1)) as real / 2.0 == Wins(matched, base)
  {
    RankSumOfPool(matched, base, matched);
    RanksAddUp(matched);
  }

  /** Swapping the samples complements the separation. */
  lemma {:induction false} SeparationComplements(m: seq<real>, base: seq<real>)
    ensures Wins(m, base) + Wins(base, m) == (|m| * |base|) as real
  {
    SeparationFromRanks(m, base);
    SeparationFromRanks(base, m);
    RanksAddUp(m + base);
    RankSumSplit(m + base, m, base);
    RankSumSwap(m, base, base);
    var a, b := |m|, |base|;
    assert (a + b) * (a + b + 1) == a * (a + 1) + b * (b + 1) + 2 * (a * b);
  }

  lemma {:induction false} RankSumSplit(x: seq<real>, y: seq<real>, z: seq<real>)
    ensures RankSum(x, y + z) == RankSum(x, y) + RankSum(x, z)
  {
    if z == [] {
      assert y + z == y;
    } else {
      assert (y + z)[..|y + z| - 1] == y + z[..|z| - 1];
      RankSumSplit(x, y, z[..|z| - 1]);
    }
  }

  lemma {:induction false} RankSumSwap(a: seq<real>, b: seq<real>, y: seq<real>)
    ensures RankSum(a + b, y) == RankSum(b + a, y)
  {
    if y != [] {
      RankSumSwap(a, b, y[..|y| - 1]);
      CountConcat(a, b, y[|y| - 1]);
      CountConcat(b, a, y[|y| - 1]);
    }
  }
}
