/**
 * Sorting the indices of a list of numbers by their values, as `sorted(range(n), key=...)` and `argsort`
 * do, equal values staying in order.
 */
module IndexSort {

  function Insert(p: seq<real>, sorted: seq<int>, i: int): seq<int>
    requires 0 <= i < |p| && forall k :: 0 <= k < |sorted| ==> 0 <= sorted[k] < |p|
  {
    if sorted == [] || p[sorted[|sorted| - 1]] <= p[i] then sorted + [i]
    else Insert(p, sorted[..|sorted| - 1], i) + [sorted[|sorted| - 1]]
  }

  ghost predicate Indices(order: seq<int>, n: nat) {
    |order| == n &&
    (forall k :: 0 <= k < n ==> 0 <= order[k] < n) &&
    (forall j, k :: 0 <= j < k < n ==> order[j] != order[k]) &&
    (forall i :: 0 <= i < n ==> i in order)
  }

  ghost predicate Ascending(p: seq<real>, order: seq<int>) {
    (forall k :: 0 <= k < |order| ==> 0 <= order[k] < |p|) &&
    forall j, k :: 0 <= j < k < |order| ==> p[order[j]] <= p[order[k]]
  }

  /** Where an index goes: behind everything not above it, before everything above it. */
  lemma {:induction false} InsertAt(p: seq<real>, sorted: seq<int>, i: int) returns (at: nat)
    requires 0 <= i < |p| && forall k :: 0 <= k < |sorted| ==> 0 <= sorted[k] < |p|
    ensures at <= |sorted| && Insert(p, sorted, i) == sorted[..at] + [i] + sorted[at..]
    ensures at > 0 ==> p[sorted[at - 1]] <= p[i]
    ensures at < |sorted| ==> p[i] < p[sorted[at]]
  {
    if sorted == [] || p[sorted[|sorted| - 1]] <= p[i] {
      at := |sorted|;
    } else {
      at := InsertAt(p, sorted[..|sorted| - 1], i);
    }
  }

  lemma SpliceAscends(p: seq<real>, sorted: seq<int>, at: nat, i: int)
    requires 0 <= i < |p| && at <= |sorted| && Ascending(p, sorted)
    requires at > 0 ==> p[sorted[at - 1]] <= p[i]
    requires at < |sorted| ==> p[i] < p[sorted[at]]
    ensures Ascending(p, sorted[..at] + [i] + sorted[at..])
  {
    var r := sorted[..at] + [i] + sorted[at..];
    forall k | 0 <= k < |r| ensures 0 <= r[k] < |p| && (k < at ==> p[r[k]] <= p[i]) && (k > at ==> p[i] <= p[r[k]]) {
      if k < at {
        assert r[k] == sorted[k];
      } else if k > at {
        assert r[k] == sorted[k - 1];
      }
    }
    forall j, k | 0 <= j < k < |r| ensures p[r[j]] <= p[r[k]] {
      var a, b := if j < at then j else j - 1, if k < at then k else k - 1;
      if j != at && k != at { assert r[j] == sorted[a] && r[k] == sorted[b]; }
    }
  }

  lemma InsertAscends(p: seq<real>, sorted: seq<int>, i: int)
    requires 0 <= i < |p| && Ascending(p, sorted)
    ensures Ascending(p, Insert(p, sorted, i))
  {
    hide Ascending, Insert;
    AscendingInRange(p, sorted);
    var at := InsertAt(p, sorted, i);
    SpliceAscends(p, sorted, at, i);
  }

  lemma AscendingInRange(p: seq<real>, order: seq<int>)
    requires Ascending(p, order)
    ensures forall k :: 0 <= k < |order| ==> 0 <= order[k] < |p|
  {
  }

  /** `sorted(range(n), key=p)`. */
  method SortIndices(p: seq<real>) returns (order: seq<int>)
    ensures Indices(order, |p|) && Ascending(p, order)
  {
    order := [];
    for i := 0 to |p|
      invariant Indices(order, i) && Ascending(p, order)
    {
      InsertAscends(p, order, i);
      InsertIndices(p, order, i);
      order := Insert(p, order, i);
    }
  }

  lemma InsertIndices(p: seq<real>, order: seq<int>, i: nat)
    requires i < |p| && Indices(order, i)
    ensures Indices(Insert(p, order, i), i + 1)
  {
    var at := InsertAt(p, order, i);
    SpliceIndices(order, at, i);
  }

  lemma SpliceIndices(order: seq<int>, at: nat, i: nat)
    requires Indices(order, i) && at <= i
    ensures Indices(order[..at] + [i] + order[at..], i + 1)
  {
    var r := order[..at] + [i] + order[at..];
    assert forall k :: 0 <= k < at ==> r[k] == order[k];
    assert forall k :: at < k <= i ==> r[k] == order[k - 1];
    forall x | 0 <= x < i + 1 ensures x in r {
      if x == i {
        assert r[at] == x;
      } else {
        assert x in order;
        var k :| 0 <= k < i && order[k] == x;
        assert r[if k < at then k else k + 1] == x;
      }
    }
  }
}
