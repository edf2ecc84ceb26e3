/** Swing highs and lows, and price levels clustered from them. */
module Levels {
  import opened Basics
  import opened RealArithmetic
  import opened IndexSort

  // ---- Swings ----

  datatype Point = Point(index: int, price: real)

  function MaxOf(s: seq<real>): (m: real)
    requires s != []
    ensures m in s && forall k :: 0 <= k < |s| ==> s[k] <= m
  {
    if |s| == 1 then s[0] else MaxReal(MaxOf(s[..|s| - 1]), s[|s| - 1])
  }

  function MinOf(s: seq<real>): (m: real)
    requires s != []
    ensures m in s && forall k :: 0 <= k < |s| ==> m <= s[k]
  {
    if |s| == 1 then s[0] else MinReal(MinOf(s[..|s| - 1]), s[|s| - 1])
  }

  function Occurrences(s: seq<real>, x: real): nat {
    if s == [] then 0 else Occurrences(s[..|s| - 1], x) + if s[|s| - 1] == x then 1 else 0
  }

  /** A value occurs once exactly when nothing else equals it. */
  lemma {:induction false} OccursOnce(s: seq<real>, at: nat)
    requires at < |s|
    ensures Occurrences(s, s[at]) >= 1
    ensures Occurrences(s, s[at]) == 1 <==> forall k :: 0 <= k < |s| && k != at ==> s[k] != s[at]
  {
    var front := s[..|s| - 1];
    if at < |front| {
      OccursOnce(front, at);
      assert forall k :: 0 <= k < |front| ==> s[k] == front[k];
    } else {
      Absent(front, s[at]);
    }
  }

  lemma {:induction false} Absent(s: seq<real>, x: real)
    ensures Occurrences(s, x) == 0 <==> forall k :: 0 <= k < |s| ==> s[k] != x
  {
    if s != [] {
      var front := s[..|s| - 1];
      Absent(front, x);
      assert forall k :: 0 <= k < |front| ==> s[k] == front[k];
    }
  }

  /** Strictly above every other bar within `side` bars. */
  ghost predicate Top(highs: seq<real>, side: nat, i: int) {
    side <= i < |highs| - side && forall j :: i - side <= j <= i + side && j != i ==> highs[j] < highs[i]
  }

  /** Strictly below every other bar within `side` bars. */
  ghost predicate Bottom(lows: seq<real>, side: nat, i: int) {
    side <= i < |lows| - side && forall j :: i - side <= j <= i + side && j != i ==> lows[i] < lows[j]
  }

  /** Points of a series, in order. */
  ghost predicate Ordered(points: seq<Point>, values: seq<real>) {
    (forall k :: 0 <= k < |points| ==> 0 <= points[k].index < |values| && points[k].price == values[points[k].index]) &&
    forall j, k :: 0 <= j < k < |points| ==> points[j].index < points[k].index
  }

  ghost predicate Listed(points: seq<Point>, i: int) { exists k :: 0 <= k < |points| && points[k].index == i }

  method IsTop(highs: seq<real>, side: nat, i: nat) returns (top: bool)
    requires side <= i < |highs| - side
    ensures top <==> Top(highs, side, i)
  {
    var window := highs[i - side..i + side + 1];
    assert window[side] == highs[i];
    OccursOnce(window, side);
    top := highs[i] == MaxOf(window) && Occurrences(window, highs[i]) == 1;
    assert forall j :: i - side <= j <= i + side ==> highs[j] == window[j - (i - side)];
    if Top(highs, side, i) {
      assert forall k :: 0 <= k < |window| && k != side ==> window[k] < window[side];
    }
  }

  method IsBottom(lows: seq<real>, side: nat, i: nat) returns (bottom: bool)
    requires side <= i < |lows| - side
    ensures bottom <==> Bottom(lows, side, i)
  {
    var window := lows[i - side..i + side + 1];
    assert window[side] == lows[i];
    OccursOnce(window, side);
    bottom := lows[i] == MinOf(window) && Occurrences(window, lows[i]) == 1;
    assert forall j :: i - side <= j <= i + side ==> lows[j] == window[j - (i - side)];
    if Bottom(lows, side, i) {
      assert forall k :: 0 <= k < |window| && k != side ==> window[side] < window[k];
    }
  }

  lemma Append(points: seq<Point>, values: seq<real>, i: nat)
    requires Ordered(points, values) && i < |values| && forall k :: 0 <= k < |points| ==> points[k].index < i
    ensures Ordered(points + [Point(i, values[i])], values)
    ensures forall j :: Listed(points + [Point(i, values[i])], j) <==> (Listed(points, j) || j == i)
  {
    var longer := points + [Point(i, values[i])];
    forall j | Listed(points, j) || j == i ensures Listed(longer, j) {
      if j == i {
        assert longer[|points|].index == i;
      } else {
        var k :| 0 <= k < |points| && points[k].index == j;
        assert longer[k].index == j;
      }
    }
  }

  /** `_swings`: exactly the tops and the bottoms, oldest first. */
  method Swings(highs: seq<real>, lows: seq<real>, side: nat) returns (tops: seq<Point>, bottoms: seq<Point>)
    requires |highs| == |lows|
    ensures Ordered(tops, highs) && Ordered(bottoms, lows)
    ensures forall i :: Listed(tops, i) <==> Top(highs, side, i)
    ensures forall i :: Listed(bottoms, i) <==> Bottom(lows, side, i)
  {
    hide Top, Bottom, Ordered, Listed;
    tops, bottoms := SwingsIn(highs, lows, side);
    OnlyInside(highs, lows, side);
  }

  lemma OnlyInside(highs: seq<real>, lows: seq<real>, side: nat)
    ensures forall i :: Top(highs, side, i) ==> side <= i < |highs| - side
    ensures forall i :: Bottom(lows, side, i) ==> side <= i < |lows| - side
  {
  }

  ghost predicate TopsTo(points: seq<Point>, highs: seq<real>, side: nat, end: int) {
    Ordered(points, highs) && (forall k :: 0 <= k < |points| ==> points[k].index < end) &&
    forall i :: Listed(points, i) <==> Top(highs, side, i) && i < end
  }

  ghost predicate BottomsTo(points: seq<Point>, lows: seq<real>, side: nat, end: int) {
    Ordered(points, lows) && (forall k :: 0 <= k < |points| ==> points[k].index < end) &&
    forall i :: Listed(points, i) <==> Bottom(lows, side, i) && i < end
  }

  lemma NextTop(points: seq<Point>, highs: seq<real>, side: nat, i: nat)
    requires TopsTo(points, highs, side, i) && i < |highs|
    ensures Top(highs, side, i) ==> TopsTo(points + [Point(i, highs[i])], highs, side, i + 1)
    ensures !Top(highs, side, i) ==> TopsTo(points, highs, side, i + 1)
  {
    hide Top, Ordered, Listed;
    Append(points, highs, i);
  }

  lemma NextBottom(points: seq<Point>, lows: seq<real>, side: nat, i: nat)
    requires BottomsTo(points, lows, side, i) && i < |lows|
    ensures Bottom(lows, side, i) ==> BottomsTo(points + [Point(i, lows[i])], lows, side, i + 1)
    ensures !Bottom(lows, side, i) ==> BottomsTo(points, lows, side, i + 1)
  {
    hide Bottom, Ordered, Listed;
    Append(points, lows, i);
  }

  method SwingsIn(highs: seq<real>, lows: seq<real>, side: nat) returns (tops: seq<Point>, bottoms: seq<Point>)
    requires |highs| == |lows|
    ensures TopsTo(tops, highs, side, MaxInt(side, |highs| - side))
    ensures BottomsTo(bottoms, lows, side, MaxInt(side, |lows| - side))
  {
    tops, bottoms := [], [];
    var i: nat := side;
    while i < |highs| - side
      invariant side <= i <= MaxInt(side, |highs| - side)
      invariant TopsTo(tops, highs, side, i) && BottomsTo(bottoms, lows, side, i)
    {
      hide Top, Bottom, Ordered, Listed, TopsTo, BottomsTo;
      NextTop(tops, highs, side, i);
      NextBottom(bottoms, lows, side, i);
      var top := IsTop(highs, side, i);
      if top { tops := tops + [Point(i, highs[i])]; }
      var bottom := IsBottom(lows, side, i);
      if bottom { bottoms := bottoms + [Point(i, lows[i])]; }
      i := i + 1;
    }
  }

  lemma AboveNeighbour(values: seq<real>, side: nat, i: int, j: int)
    requires Top(values, side, i) && i - side <= j <= i + side && j != i
    ensures 0 <= j < |values| && values[j] < values[i]
  {
  }

  lemma BelowNeighbour(values: seq<real>, side: nat, i: int, j: int)
    requires Bottom(values, side, i) && i - side <= j <= i + side && j != i
    ensures 0 <= j < |values| && values[i] < values[j]
  {
  }

  /** Two swing highs, or two swing lows, are more than `side` bars apart. */
  lemma SwingsKeepApart(values: seq<real>, side: nat, i: int, j: int)
    requires i < j
    requires (Top(values, side, i) && Top(values, side, j)) || (Bottom(values, side, i) && Bottom(values, side, j))
    ensures j - i > side
  {
    hide Top, Bottom;
    if j - i <= side {
      if Top(values, side, i) && Top(values, side, j) {
        AboveNeighbour(values, side, i, j);
        AboveNeighbour(values, side, j, i);
      } else {
        BelowNeighbour(values, side, i, j);
        BelowNeighbour(values, side, j, i);
      }
    }
  }

  // ---- Clusters ----

  datatype Cluster = Cluster(price: real, sum: real, n: nat, last: int)

  ghost predicate ByPrice(s: seq<Point>) { forall j, k :: 0 <= j < k < |s| ==> s[j].price <= s[k].price }

  /** The same points in another order. */
  ghost predicate Reordered(points: seq<Point>, s: seq<Point>) {
    |s| == |points| && exists order :: Indices(order, |points|) && Picks(points, order, s)
  }

  ghost predicate Picks(points: seq<Point>, order: seq<int>, s: seq<Point>) {
    |s| == |order| && forall k :: 0 <= k < |order| ==> 0 <= order[k] < |points| && s[k] == points[order[k]]
  }

  method SortByPrice(points: seq<Point>) returns (s: seq<Point>)
    ensures Reordered(points, s) && ByPrice(s)
  {
    var prices := seq(|points|, k requires 0 <= k < |points| => points[k].price);
    var order := SortIndices(prices);
    s := seq(|points|, k requires 0 <= k < |points| => points[order[k]]);
    assert Picks(points, order, s);
  }

  function Sum(s: seq<Point>, a: nat, b: nat): real
    requires a <= b <= |s|
  {
    if a == b then 0.0 else Sum(s, a, b - 1) + s[b - 1].price
  }

  function Mean(s: seq<Point>, a: nat, b: nat): real
    requires a < b <= |s|
  {
    Sum(s, a, b) / (b - a) as real
  }

  /** Within `pct` percent of a price. */
  predicate Near(price: real, centre: real, pct: real) { AbsReal(price - centre) <= centre * pct / 100.0 }

  function End(cuts: seq<nat>, k: nat, n: nat): nat { if k + 1 < |cuts| then cuts[k + 1] else n }

  /** Where each run starts: contiguous, non-empty runs that cover the first n points. */
  ghost predicate Runs(cuts: seq<nat>, n: nat) {
    (cuts == [] <==> n == 0) && (cuts != [] ==> cuts[0] == 0) &&
    (forall k :: 0 <= k < |cuts| ==> cuts[k] < n) &&
    forall j, k :: 0 <= j < k < |cuts| ==> cuts[j] < cuts[k]
  }

  /** One cluster says what its run holds. */
  ghost predicate Summary(c: Cluster, s: seq<Point>, a: nat, b: nat) {
    a < b <= |s| && c.n == b - a && c.sum == Sum(s, a, b) && c.price == Mean(s, a, b) && Latest(c.last, s, a, b)
  }

  ghost predicate Latest(last: int, s: seq<Point>, a: nat, b: nat) {
    a < b <= |s| && (exists j :: a <= j < b && s[j].index == last) && forall j :: a <= j < b ==> s[j].index <= last
  }

  /** Every later point of a run was near the mean of the points before it. */
  ghost predicate Joined(s: seq<Point>, a: nat, b: nat, pct: real) {
    b <= |s| && forall j :: a < j < b ==> Near(s[j].price, Mean(s, a, j), pct)
  }

  /** The first point of a run was not near the mean of the run before. */
  ghost predicate Split(s: seq<Point>, a: nat, b: nat, pct: real) {
    a < b < |s| && !Near(s[b].price, Mean(s, a, b), pct)
  }

  /** One run took every point it could and stopped at the first it could not. */
  ghost predicate GreedyRun(s: seq<Point>, cuts: seq<nat>, n: nat, k: nat, pct: real)
    requires k < |cuts|
  {
    Joined(s, cuts[k], End(cuts, k, n), pct) && (k + 1 < |cuts| ==> Split(s, cuts[k], cuts[k + 1], pct))
  }

  ghost predicate Greedy(s: seq<Point>, cuts: seq<nat>, n: nat, pct: real) {
    Runs(cuts, n) && n <= |s| && forall k :: 0 <= k < |cuts| ==> GreedyRun(s, cuts, n, k, pct)
  }

  ghost predicate SumsUp(clusters: seq<Cluster>, s: seq<Point>, cuts: seq<nat>, n: nat, k: nat)
    requires k < |cuts| == |clusters|
  {
    Summary(clusters[k], s, cuts[k], End(cuts, k, n))
  }

  ghost predicate Clustered(clusters: seq<Cluster>, s: seq<Point>, cuts: seq<nat>, n: nat, pct: real) {
    Greedy(s, cuts, n, pct) && |clusters| == |cuts| && forall k :: 0 <= k < |cuts| ==> SumsUp(clusters, s, cuts, n, k)
  }

  /** The clusters of some points: greedy runs of the points in price order, each summed up. */
  ghost predicate Clustering(points: seq<Point>, pct: real, clusters: seq<Cluster>) {
    exists s, cuts :: Reordered(points, s) && ByPrice(s) && Clustered(clusters, s, cuts, |points|, pct)
  }

  function Joining(c: Cluster, p: Point): Cluster {
    Cluster((c.sum + p.price) / (c.n + 1) as real, c.sum + p.price, c.n + 1, MaxInt(c.last, p.index))
  }

  lemma JoinSummary(c: Cluster, s: seq<Point>, a: nat, b: nat)
    requires b < |s| && Summary(c, s, a, b)
    ensures Summary(Joining(c, s[b]), s, a, b + 1)
  {
    LatestGrows(c.last, s, a, b);
  }

  lemma LatestGrows(last: int, s: seq<Point>, a: nat, b: nat)
    requires b < |s| && Latest(last, s, a, b)
    ensures Latest(MaxInt(last, s[b].index), s, a, b + 1)
  {
    var j :| a <= j < b && s[j].index == last;
    assert s[if last < s[b].index then b else j].index == MaxInt(last, s[b].index);
  }

  lemma OpenSummary(s: seq<Point>, a: nat)
    requires a < |s|
    ensures Summary(Cluster(s[a].price, s[a].price, 1, s[a].index), s, a, a + 1)
  {
    assert Sum(s, a, a) == 0.0;
    assert s[a].index == s[a].index;
  }

  lemma JoinKeeps(clusters: seq<Cluster>, s: seq<Point>, cuts: seq<nat>, n: nat, pct: real)
    requires Clustered(clusters, s, cuts, n, pct) && cuts != [] && n < |s|
    requires Near(s[n].price, clusters[|clusters| - 1].price, pct)
    ensures Clustered(clusters[|clusters| - 1 := Joining(clusters[|clusters| - 1], s[n])], s, cuts, n + 1, pct)
  {
    hide Summary, Joined, Split, Near;
    var m := |cuts| - 1;
    var more := clusters[m := Joining(clusters[m], s[n])];
    assert GreedyRun(s, cuts, n, m, pct) && SumsUp(clusters, s, cuts, n, m);
    JoinedMore(clusters[m], s, cuts[m], n, pct);
    JoinSummary(clusters[m], s, cuts[m], n);
    var next := n + 1;
    forall k | 0 <= k < |cuts| ensures GreedyRun(s, cuts, next, k, pct) && SumsUp(more, s, cuts, next, k) {
      assert GreedyRun(s, cuts, n, k, pct) && SumsUp(clusters, s, cuts, n, k);
    }
  }

  lemma JoinedMore(c: Cluster, s: seq<Point>, a: nat, n: nat, pct: real)
    requires n < |s| && Summary(c, s, a, n) && Joined(s, a, n, pct) && Near(s[n].price, c.price, pct)
    ensures Joined(s, a, n + 1, pct)
  {
  }

  lemma OpenKeeps(clusters: seq<Cluster>, s: seq<Point>, cuts: seq<nat>, n: nat, pct: real)
    requires Clustered(clusters, s, cuts, n, pct) && n < |s|
    requires cuts != [] ==> !Near(s[n].price, clusters[|clusters| - 1].price, pct)
    ensures Clustered(clusters + [Cluster(s[n].price, s[n].price, 1, s[n].index)], s, cuts + [n], n + 1, pct)
  {
    hide Summary, Joined, Split, Near;
    OpenSummary(s, n);
    JoinedAlone(s, n, pct);
    var m := |cuts| - 1;
    if cuts != [] {
      assert SumsUp(clusters, s, cuts, n, m);
      SplitHere(clusters[m], s, cuts[m], n, pct);
    }
    var longer, more := cuts + [n], clusters + [Cluster(s[n].price, s[n].price, 1, s[n].index)];
    var next := n + 1;
    forall k | 0 <= k < |longer| ensures GreedyRun(s, longer, next, k, pct) && SumsUp(more, s, longer, next, k) {
      if k < |cuts| { assert GreedyRun(s, cuts, n, k, pct) && SumsUp(clusters, s, cuts, n, k); }
    }
  }

  lemma JoinedAlone(s: seq<Point>, n: nat, pct: real)
    requires n < |s|
    ensures Joined(s, n, n + 1, pct)
  {
  }

  lemma SplitHere(c: Cluster, s: seq<Point>, a: nat, n: nat, pct: real)
    requires n < |s| && Summary(c, s, a, n) && !Near(s[n].price, c.price, pct)
    ensures Split(s, a, n, pct)
  {
  }

  /** `_cluster`: greedy runs of the points sorted by price, each summed up in one cluster. */
  method ClusterPoints(points: seq<Point>, pct: real) returns (clusters: seq<Cluster>)
    ensures Clustering(points, pct, clusters)
  {
    hide Clustered, Reordered, ByPrice;
    var sorted := SortByPrice(points);
    SameLength(points, sorted);
    clusters := [];
    ghost var cuts: seq<nat> := [];
    NoClusters(sorted, pct);
    for n := 0 to |sorted|
      invariant |clusters| == |cuts| && Clustered(clusters, sorted, cuts, n, pct)
    {
      var m := |clusters| - 1;
      if clusters != [] && Near(sorted[n].price, clusters[m].price, pct) {
        JoinKeeps(clusters, sorted, cuts, n, pct);
        clusters := clusters[m := Joining(clusters[m], sorted[n])];
      } else {
        OpenKeeps(clusters, sorted, cuts, n, pct);
        clusters := clusters + [Cluster(sorted[n].price, sorted[n].price, 1, sorted[n].index)];
        cuts := cuts + [n];
      }
    }
  }

  lemma SameLength(points: seq<Point>, s: seq<Point>)
    requires Reordered(points, s)
    ensures |s| == |points|
  {
  }

  lemma NoClusters(s: seq<Point>, pct: real)
    ensures Clustered([], s, [], 0, pct)
  {
  }

  lemma OneMore(x: real, n: real)
    ensures x * (n + 1.0) == x * n + x
  {
  }

  lemma SumStep(low: real, sum: real, high: real, next: real, n: real)
    requires n >= 0.0 && low <= next && high <= next && low * n <= sum <= high * n
    ensures low * (n + 1.0) <= sum + next <= next * (n + 1.0)
  {
    Scale(high, next, n);
    OneMore(low, n);
    OneMore(next, n);
  }

  lemma {:induction false} SumBounds(s: seq<Point>, a: nat, b: nat)
    requires a < b <= |s| && ByPrice(s)
    ensures s[a].price * (b - a) as real <= Sum(s, a, b) <= s[b - 1].price * (b - a) as real
  {
    if a == b - 1 {
      assert Sum(s, a, a) == 0.0;
    } else {
      SumBounds(s, a, b - 1);
      SumStep(s[a].price, Sum(s, a, b - 1), s[b - 2].price, s[b - 1].price, (b - 1 - a) as real);
    }
  }

  /** A cluster's price lies within its run. */
  lemma MeanInRun(s: seq<Point>, a: nat, b: nat)
    requires a < b <= |s| && ByPrice(s)
    ensures s[a].price <= Mean(s, a, b) <= s[b - 1].price
  {
    SumBounds(s, a, b);
    Quotient(s[a].price, Sum(s, a, b), s[b - 1].price, (b - a) as real);
  }

  /** What being clustered says of two neighbouring clusters. */
  lemma Neighbours(clusters: seq<Cluster>, s: seq<Point>, cuts: seq<nat>, n: nat, pct: real, k: nat)
    requires Clustered(clusters, s, cuts, n, pct) && k + 1 < |clusters|
    ensures |cuts| == |clusters| && Split(s, cuts[k], cuts[k + 1], pct)
    ensures Summary(clusters[k], s, cuts[k], cuts[k + 1])
    ensures Summary(clusters[k + 1], s, cuts[k + 1], End(cuts, k + 1, n))
  {
    hide Summary, Split, Joined;
    assert GreedyRun(s, cuts, n, k, pct) && SumsUp(clusters, s, cuts, n, k) && SumsUp(clusters, s, cuts, n, k + 1);
  }

  lemma PricesApart(low: Cluster, high: Cluster, s: seq<Point>, a: nat, b: nat, e: nat, pct: real)
    requires ByPrice(s) && Split(s, a, b, pct) && Summary(low, s, a, b) && Summary(high, s, b, e)
    ensures high.price - low.price > low.price * pct / 100.0
  {
    hide Mean, Sum, Latest;
    MeanInRun(s, a, b);
    MeanInRun(s, b, e);
    assert s[b - 1].price <= s[b].price;
  }

  /** Neighbouring clusters end up more than `pct` percent of the lower one's price apart. */
  lemma ClustersKeepApart(points: seq<Point>, pct: real, clusters: seq<Cluster>, k: nat)
    requires Clustering(points, pct, clusters) && k + 1 < |clusters|
    ensures clusters[k + 1].price - clusters[k].price > clusters[k].price * pct / 100.0
  {
    hide Reordered, Summary, Split, ByPrice, Clustered, End;
    var s, cuts :| Reordered(points, s) && ByPrice(s) && Clustered(clusters, s, cuts, |points|, pct);
    Neighbours(clusters, s, cuts, |points|, pct, k);
    PricesApart(clusters[k], clusters[k + 1], s, cuts[k], cuts[k + 1], End(cuts, k + 1, |points|), pct);
  }

  /** What the greedy rule says of one run and the next. */
  lemma RunAndNext(s: seq<Point>, cuts: seq<nat>, n: nat, pct: real, k: nat)
    requires Greedy(s, cuts, n, pct) && 0 < k < |cuts|
    ensures Joined(s, cuts[k - 1], cuts[k], pct) && Split(s, cuts[k - 1], cuts[k], pct)
  {
    hide Joined, Split;
    assert GreedyRun(s, cuts, n, k - 1, pct);
  }

  ghost predicate NonNegative(s: seq<Point>) { forall j :: 0 <= j < |s| ==> s[j].price >= 0.0 }

  /** Points of one price are never split over two clusters. */
  lemma TiesStayTogether(s: seq<Point>, cuts: seq<nat>, n: nat, pct: real, k: nat)
    requires ByPrice(s) && Greedy(s, cuts, n, pct) && 0 < k < |cuts|
    requires pct >= 0.0 && NonNegative(s)
    ensures 0 < cuts[k] < |s| && s[cuts[k] - 1].price < s[cuts[k]].price
  {
    hide Joined, Split, ByPrice, NonNegative;
    RunAndNext(s, cuts, n, pct, k);
    SplitInside(s, cuts[k - 1], cuts[k], pct);
    SplitHasNoTie(s, cuts[k - 1], cuts[k], pct);
  }

  lemma SplitInside(s: seq<Point>, a: nat, b: nat, pct: real)
    requires Split(s, a, b, pct)
    ensures a < b < |s|
  {
  }

  lemma SplitHasNoTie(s: seq<Point>, a: nat, b: nat, pct: real)
    requires ByPrice(s) && Joined(s, a, b, pct) && Split(s, a, b, pct)
    requires pct >= 0.0 && NonNegative(s)
    ensures s[b - 1].price < s[b].price
  {
    hide Joined, Mean, Near;
    if s[b - 1].price == s[b].price { TieJoins(s, a, b, pct); }
  }

  /** A point at the price of the one just joined would have joined too. */
  lemma TieJoins(s: seq<Point>, a: nat, b: nat, pct: real)
    requires ByPrice(s) && a < b < |s| && Joined(s, a, b, pct) && s[b - 1].price == s[b].price
    requires pct >= 0.0 && NonNegative(s)
    ensures Near(s[b].price, Mean(s, a, b), pct)
  {
    hide Mean, Near;
    MeanInRun(s, a, b);
    if b == a + 1 {
      NearItself(s[b].price, pct);
    } else {
      assert Near(s[b - 1].price, Mean(s, a, b - 1), pct);
      MeanInRun(s, a, b - 1);
      MeanRises(s, a, b);
      NearCloser(s[b].price, Mean(s, a, b - 1), Mean(s, a, b), pct);
    }
  }

  lemma NearItself(p: real, pct: real)
    requires p >= 0.0 && pct >= 0.0
    ensures Near(p, p, pct)
  {
    Scale(0.0, p, pct);
  }

  lemma NearCloser(p: real, m: real, closer: real, pct: real)
    requires Near(p, m, pct) && pct >= 0.0 && m <= closer <= p
    ensures Near(p, closer, pct)
  {
    Scale(m, closer, pct);
  }

  lemma MeanRises(s: seq<Point>, a: nat, b: nat)
    requires ByPrice(s) && a < b - 1 && b <= |s|
    ensures Mean(s, a, b - 1) <= Mean(s, a, b)
  {
    var n := (b - 1 - a) as real;
    var m := Mean(s, a, b - 1);
    MeanInRun(s, a, b - 1);
    assert m * n == Sum(s, a, b - 1);
    assert s[b - 2].price <= s[b - 1].price;
    assert m * (n + 1.0) == m * n + m;
    Quotient(m, Sum(s, a, b), Sum(s, a, b) / (n + 1.0), n + 1.0);
  }

  /** The greedy rule leaves no choice of runs. */
  lemma {:induction false} RunsAgree(s: seq<Point>, one: seq<nat>, two: seq<nat>, n: nat, pct: real, k: nat)
    requires Greedy(s, one, n, pct) && Greedy(s, two, n, pct) && k < |one|
    ensures k < |two| && one[k] == two[k]
  {
    if k > 0 {
      var before := k - 1;
      RunsAgree(s, one, two, n, pct, before);
      NextCut(s, one, two, n, pct, before);
      NextCut(s, two, one, n, pct, before);
    }
  }

  /** A run cannot both take a point and stop before it. */
  lemma StopsAt(s: seq<Point>, a: nat, b: nat, c: nat, pct: real)
    requires Joined(s, a, b, pct) && Split(s, a, c, pct)
    ensures b <= c
  {
  }

  lemma NextCut(s: seq<Point>, one: seq<nat>, two: seq<nat>, n: nat, pct: real, k: nat)
    requires Greedy(s, one, n, pct) && Greedy(s, two, n, pct) && k < |one| && k < |two| && one[k] == two[k]
    ensures End(two, k, n) <= End(one, k, n)
  {
    hide Joined, Split;
    assert GreedyRun(s, one, n, k, pct) && GreedyRun(s, two, n, k, pct);
    if k + 1 < |one| { StopsAt(s, one[k], End(two, k, n), one[k + 1], pct); }
  }

  // ---- In percent ----

  function Distance(a: real, b: real): real { if a < b then b - a else a - b }

  /** A hundred times the distance of a price from a centre is at most `pct` times the centre. */
  predicate WithinPercent(price: real, centre: real, pct: real) { 100.0 * Distance(price, centre) <= pct * centre }

  lemma NearIsPercent(price: real, centre: real, pct: real)
    ensures Near(price, centre, pct) <==> WithinPercent(price, centre, pct)
  {
  }

  /** Each later point of a run lies within `pct` percent of the mean before it; the next run's first does not. */
  lemma RunsByPercent(s: seq<Point>, cuts: seq<nat>, n: nat, pct: real, k: nat)
    requires Greedy(s, cuts, n, pct) && k < |cuts|
    ensures End(cuts, k, n) <= |s| && forall j :: cuts[k] < j < End(cuts, k, n) ==>
              WithinPercent(s[j].price, Mean(s, cuts[k], j), pct)
    ensures k + 1 < |cuts| ==>
      cuts[k] < cuts[k + 1] < |s| && !WithinPercent(s[cuts[k + 1]].price, Mean(s, cuts[k], cuts[k + 1]), pct)
  {
    hide Mean, WithinPercent, Near;
    assert GreedyRun(s, cuts, n, k, pct);
    forall j | cuts[k] < j < End(cuts, k, n) ensures WithinPercent(s[j].price, Mean(s, cuts[k], j), pct) {
      NearIsPercent(s[j].price, Mean(s, cuts[k], j), pct);
    }
    if k + 1 < |cuts| { NearIsPercent(s[cuts[k + 1]].price, Mean(s, cuts[k], cuts[k + 1]), pct); }
  }
}
