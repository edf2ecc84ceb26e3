/** Benjamini-Hochberg and what it rejects. */
module FalseDiscovery {
  import opened IndexSort
  import opened OrderedRows
  import opened RealArithmetic

  /** The line a p-value of a given rank is held against. */
  function Threshold(q: real, rank: int, m: nat): real
    requires m > 0
  {
    q * (rank as real) / (m as real)
  }

  lemma ThresholdRises(q: real, a: int, b: int, m: nat)
    requires m > 0 && q >= 0.0 && a <= b
    ensures Threshold(q, a, m) <= Threshold(q, b, m)
  {
    var d := b as real - a as real;
    assert q * (b as real) == q * (a as real) + q * d;
    assert q * d >= 0.0;
    var x, y := q * (a as real), q * (b as real);
    assert x / (m as real) <= y / (m as real);
  }

  /** `m` times the p-value is at most `rank` times the level. */
  predicate UnderLine(p: real, q: real, rank: int, m: nat) { p * (m as real) <= q * (rank as real) }

  lemma LineIsThreshold(p: real, q: real, rank: int, m: nat)
    requires m > 0
    ensures UnderLine(p, q, rank, m) <==> p <= Threshold(q, rank, m)
  {
    var t := Threshold(q, rank, m);
    assert t * (m as real) == q * (rank as real);
    if p <= t { Scale(p, t, m as real); } else { Stretch(t, p, m as real); }
  }

  /** Every member is at most q times its share of the whole, the share counting the set itself. */
  ghost predicate SelfConsistent(p: seq<real>, q: real, s: set<int>) {
    p != [] && (forall i :: i in s ==> 0 <= i < |p|) && forall i :: i in s ==> p[i] <= Threshold(q, |s|, |p|)
  }

  /** In other words: the size of the whole times each member is at most the size of the set times the level. */
  lemma ConsistentByCounting(p: seq<real>, q: real, s: set<int>)
    ensures SelfConsistent(p, q, s) <==>
            p != [] && (forall i :: i in s ==> 0 <= i < |p|) && forall i :: i in s ==> UnderLine(p[i], q, |s|, |p|)
  {
    if p != [] && forall i :: i in s ==> 0 <= i < |p| {
      forall i | i in s ensures UnderLine(p[i], q, |s|, |p|) <==> p[i] <= Threshold(q, |s|, |p|) {
        LineIsThreshold(p[i], q, |s|, |p|);
      }
      hide UnderLine, Threshold;
    }
  }

  ghost predicate Greatest(p: seq<real>, q: real, s: set<int>) {
    SelfConsistent(p, q, s) && forall t :: SelfConsistent(p, q, t) ==> t <= s
  }

  ghost function Rejected(passed: seq<bool>): set<int> { set i | 0 <= i < |passed| && passed[i] }

  /** As p-values are. */
  predicate NonNegative(p: seq<real>) { forall i :: 0 <= i < |p| ==> p[i] >= 0.0 }

  /** The first `r` positions of an order. */
  ghost function Front(order: seq<int>, r: nat): set<int>
    requires r <= |order|
  {
    set k | 0 <= k < r :: order[k]
  }

  lemma {:induction false} FrontSize(order: seq<int>, r: nat)
    requires r <= |order| && forall j, k :: 0 <= j < k < |order| ==> order[j] != order[k]
    ensures |Front(order, r)| == r
  {
    if r > 0 {
      FrontSize(order, r - 1);
      assert Front(order, r) == Front(order, r - 1) + {order[r - 1]};
      assert order[r - 1] !in Front(order, r - 1);
    }
  }

  lemma {:induction false} SubsetSize(a: set<int>, b: set<int>)
    requires a <= b
    ensures |a| <= |b|
  {
    assert b == a + (b - a);
  }

  /** The step-up loop: the greatest rank whose p-value is under its line, and everything ranked before it. */
  method BenjaminiHochberg(p: seq<real>, q: real) returns (passed: seq<bool>)
    ensures |passed| == |p|
    ensures p != [] ==> SelfConsistent(p, q, Rejected(passed))
    ensures Greatest(p, q, Rejected(passed)) <==> exists s :: Greatest(p, q, s)
    ensures p != [] && (q >= 0.0 || NonNegative(p)) ==> Greatest(p, q, Rejected(passed))
  {
    var m := |p|;
    var order := SortIndices(p);
    passed := seq(m, _ => false);
    var cutoff := 0;
    for k := 0 to m
      invariant 0 <= cutoff <= k
      invariant cutoff > 0 ==> p[order[cutoff - 1]] <= Threshold(q, cutoff, m)
      invariant forall t :: cutoff <= t < k ==> p[order[t]] > Threshold(q, t + 1, m)
    {
      if p[order[k]] <= Threshold(q, k + 1, m) {
        cutoff := k + 1;
      }
    }
    for k := 0 to m
      invariant |passed| == m
      invariant forall i :: 0 <= i < m && passed[i] ==> i in Front(order, k)
      invariant forall t :: 0 <= t < k ==> passed[order[t]] == (t < cutoff)
    {
      if k < cutoff {
        passed := passed[order[k] := true];
      }
    }
    if p != [] { StepUpIsGreatest(p, q, order, cutoff, passed); }
  }

  lemma StepUpIsGreatest(p: seq<real>, q: real, order: seq<int>, cutoff: nat, passed: seq<bool>)
    requires p != [] && Indices(order, |p|) && Ascending(p, order) && cutoff <= |p| == |passed|
    requires cutoff > 0 ==> p[order[cutoff - 1]] <= Threshold(q, cutoff, |p|)
    requires forall t :: cutoff <= t < |p| ==> p[order[t]] > Threshold(q, t + 1, |p|)
    requires forall t :: 0 <= t < |p| ==> passed[order[t]] == (t < cutoff)
    ensures SelfConsistent(p, q, Rejected(passed))
    ensures Greatest(p, q, Rejected(passed)) <==> exists s :: Greatest(p, q, s)
    ensures q >= 0.0 || NonNegative(p) ==> Greatest(p, q, Rejected(passed))
  {
    var r := Rejected(passed);
    forall i ensures i in r <==> i in Front(order, cutoff) {
      if i in r { assert i in order; }
    }
    assert r == Front(order, cutoff);
    FrontSize(order, cutoff);
    forall i | i in r ensures p[i] <= Threshold(q, |r|, |p|) {
      var k :| 0 <= k < cutoff && order[k] == i;
      assert k < cutoff - 1 ==> p[order[k]] <= p[order[cutoff - 1]];
    }
    forall s | Greatest(p, q, s) ensures s == r { GreatestIsFront(p, q, order, cutoff, s); }
    if q >= 0.0 {
      forall s | SelfConsistent(p, q, s) ensures s <= r {
        ConsistentIsBelow(p, q, order, cutoff, s);
      }
    } else if NonNegative(p) {
      forall s | SelfConsistent(p, q, s) ensures s == {} { NothingBelowZero(p, q, s); }
      assert Greatest(p, q, r);
    }
  }

  /** At any level, a greatest set, if there is one, is the front up to the cutoff. */
  lemma GreatestIsFront(p: seq<real>, q: real, order: seq<int>, cutoff: nat, s: set<int>)
    requires p != [] && Indices(order, |p|) && Ascending(p, order) && cutoff <= |p|
    requires forall t :: cutoff <= t < |p| ==> p[order[t]] > Threshold(q, t + 1, |p|)
    requires SelfConsistent(p, q, Front(order, cutoff)) && Greatest(p, q, s)
    ensures s == Front(order, cutoff)
  {
    FrontSize(order, cutoff);
    if s != {} { SizeMeetsLine(p, q, order, s); }
    SameSizeSubset(Front(order, cutoff), s);
  }

  /** The value ranked at a self-consistent set's size meets that rank's line. */
  lemma SizeMeetsLine(p: seq<real>, q: real, order: seq<int>, s: set<int>)
    requires Indices(order, |p|) && Ascending(p, order) && SelfConsistent(p, q, s) && s != {}
    ensures 0 < |s| <= |p| && p[order[|s| - 1]] <= Threshold(q, |s|, |p|)
  {
    var u: int := LastIn(order, s);
    LastIsFar(order, s, u);
    Inhabited(s);
    var last: int := |s| - 1;
    assert last < u ==> p[order[last]] <= p[order[u]];
  }

  /** A set's last-ranked member has a rank of at least the set's size. */
  lemma LastIsFar(order: seq<int>, s: set<int>, u: int)
    requires (forall j, k :: 0 <= j < k < |order| ==> order[j] != order[k]) && forall i :: i in s ==> i in order
    requires s != {} && -1 <= u < |order| && forall k :: u < k < |order| ==> order[k] !in s
    ensures |s| <= u + 1
  {
    var n: nat := u + 1;
    FrontSize(order, n);
    forall i | i in s ensures i in Front(order, n) { var k :| 0 <= k < |order| && order[k] == i; }
    SubsetSize(s, Front(order, n));
  }

  lemma SameSizeSubset(a: set<int>, b: set<int>)
    requires a <= b && |b| <= |a|
    ensures a == b
  {
    assert b == a + (b - a);
  }

  /** Below a level of zero no set of p-values is self-consistent but the empty one. */
  lemma NothingBelowZero(p: seq<real>, q: real, s: set<int>)
    requires q < 0.0 && NonNegative(p) && SelfConsistent(p, q, s)
    ensures s == {}
  {
    if s != {} {
      Inhabited(s);
      var i :| i in s;
      NegativeLine(q, |s|, |p|);
    }
  }

  lemma NegativeLine(q: real, rank: nat, m: nat)
    requires q < 0.0 && rank > 0 && m > 0
    ensures Threshold(q, rank, m) < 0.0
  {
    var x, y := q * (rank as real), q * (rank as real) / (m as real);
    Stretch(q, 0.0, rank as real);
    assert y * (m as real) == x;
    if y >= 0.0 { Scale(0.0, y, m as real); }
  }

  /** Any self-consistent set lies within the cutoff: its last-ranked member meets its own line. */
  lemma ConsistentIsBelow(p: seq<real>, q: real, order: seq<int>, cutoff: nat, s: set<int>)
    requires p != [] && q >= 0.0 && Indices(order, |p|) && cutoff <= |p|
    requires forall t :: cutoff <= t < |p| ==> p[order[t]] > Threshold(q, t + 1, |p|)
    requires SelfConsistent(p, q, s)
    ensures s <= Front(order, cutoff)
  {
    var u: int := LastIn(order, s);
    if u >= 0 {
      assert s <= Front(order, u + 1) by {
        forall i | i in s ensures i in Front(order, u + 1) { assert i in order; }
      }
      FrontSize(order, u + 1);
      SubsetSize(s, Front(order, u + 1));
      ThresholdRises(q, |s|, u + 1, |p|);
      assert u < cutoff;
    }
    forall i | i in s ensures i in Front(order, cutoff) { assert i in order; }
  }

  /** The last position whose index is in `s`, or -1. */
  lemma {:induction false} LastIn(order: seq<int>, s: set<int>) returns (u: int)
    ensures -1 <= u < |order|
    ensures u >= 0 ==> order[u] in s
    ensures forall k :: u < k < |order| ==> order[k] !in s
  {
    u := |order| - 1;
    while u >= 0 && order[u] !in s
      invariant -1 <= u < |order|
      invariant forall k :: u < k < |order| ==> order[k] !in s
    {
      u := u - 1;
    }
  }

  // ---- What being the greatest implies ----

  lemma GreatestIsUnique(p: seq<real>, q: real, a: set<int>, b: set<int>)
    requires Greatest(p, q, a) && Greatest(p, q, b)
    ensures a == b
  {
  }

  /** A p-value no larger than a rejected one is rejected; tied p-values share their verdict. */
  lemma RejectionsAreDownwardClosed(p: seq<real>, q: real, r: set<int>, i: int, j: int)
    requires Greatest(p, q, r)
    requires i in r && 0 <= j < |p| && p[j] <= p[i]
    ensures j in r
  {
    if j !in r {
      var s := r - {i} + {j};
      assert |s| == |r|;
      assert SelfConsistent(p, q, s);
    }
  }

  ghost function Image(perm: seq<int>, s: set<int>): set<int>
    requires forall i :: i in s ==> 0 <= i < |perm|
  {
    set i | i in s :: perm[i]
  }

  lemma {:induction false} ImageSize(perm: seq<int>, s: set<int>)
    requires forall i :: i in s ==> 0 <= i < |perm|
    requires forall j, k :: 0 <= j < k < |perm| ==> perm[j] != perm[k]
    ensures |Image(perm, s)| == |s|
    decreases |s|
  {
    if s != {} {
      Inhabited(s);
      var x :| x in s;
      ImageSize(perm, s - {x});
      assert Image(perm, s) == Image(perm, s - {x}) + {perm[x]};
    }
  }

  /** Reordering the p-values reorders the verdicts and changes none of them. */
  lemma InputOrderDoesNotMatter(p: seq<real>, p': seq<real>, perm: seq<int>, q: real, r: set<int>, r': set<int>)
    requires Indices(perm, |p|) && |p'| == |p| && forall i :: 0 <= i < |p| ==> p'[i] == p[perm[i]]
    requires Greatest(p, q, r) && Greatest(p', q, r')
    ensures forall i :: 0 <= i < |p| ==> (i in r' <==> perm[i] in r)
  {
    ImageSize(perm, r');
    assert SelfConsistent(p, q, Image(perm, r'));
    var back := set i | 0 <= i < |p| && perm[i] in r;
    forall x ensures x in Image(perm, back) <==> x in r {
      if x in r { assert x in perm; }
    }
    assert Image(perm, back) == r;
    ImageSize(perm, back);
    assert SelfConsistent(p', q, back);
    forall i | 0 <= i < |p| ensures i in r' <==> perm[i] in r {
      if i in r' { assert perm[i] in Image(perm, r'); }
      if perm[i] in r { assert i in back; }
    }
  }
}
