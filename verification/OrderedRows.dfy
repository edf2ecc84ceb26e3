/**
 * Lists of rows in strictly rising key order, the dictionaries they come from, and how sorting,
 * inserting and replacing keep them so.
 */
module OrderedRows {
  import opened Basics

  ghost predicate Strict<T>(rows: seq<T>, key: T -> int) {
    forall i, j :: 0 <= i < j < |rows| ==> key(rows[i]) < key(rows[j])
  }

  /** The first row with a key, or the number of rows. */
  function Find<T>(rows: seq<T>, key: T -> int, k: int): (i: nat)
    ensures i <= |rows|
    ensures i < |rows| ==> key(rows[i]) == k
    ensures forall j :: 0 <= j < i ==> key(rows[j]) != k
  {
    if rows == [] then 0 else if key(rows[0]) == k then 0 else 1 + Find(rows[1..], key, k)
  }

  /** The row filed under a key. */
  ghost function At<T>(rows: seq<T>, key: T -> int, k: int): Option<T> {
    var i := Find(rows, key, k);
    if i < |rows| then Some(rows[i]) else None
  }

  /** A stable sort by key: rows inserted one after another, behind their equals. */
  function SortRows<T>(rows: seq<T>, key: T -> int): seq<T> {
    if rows == [] then [] else InsertRow(SortRows(rows[..|rows| - 1], key), key, rows[|rows| - 1])
  }

  function InsertRow<T>(sorted: seq<T>, key: T -> int, c: T): seq<T> {
    if sorted == [] || key(sorted[|sorted| - 1]) <= key(c) then sorted + [c]
    else InsertRow(sorted[..|sorted| - 1], key, c) + [sorted[|sorted| - 1]]
  }

  ghost predicate IsLeast(s: set<int>, k: int) { k in s && forall j :: j in s ==> k <= j }

  lemma Inhabited(s: set<int>)
    ensures s == {} || exists x :: x in s
  {
    if forall x :: x !in s { assert s == {}; }
  }

  lemma {:induction false} LeastExists(s: set<int>)
    requires s != {}
    ensures exists k :: IsLeast(s, k)
    decreases |s|
  {
    Inhabited(s);
    var x :| x in s;
    var rest := s - {x};
    if rest == {} {
      assert s == {x};
      assert IsLeast(s, x);
    } else {
      LeastExists(rest);
      var k :| IsLeast(rest, k);
      var least := if x <= k then x else k;
      forall j | j in s ensures least <= j { if j != x { assert j in rest; } }
      assert IsLeast(s, least);
    }
  }

  /** The keys of a dictionary in rising order. */
  ghost function SortedKeys(s: set<int>): seq<int>
    decreases |s|
  {
    if s == {} then []
    else
      LeastExists(s);
      var k :| IsLeast(s, k);
      [k] + SortedKeys(s - {k})
  }

  /** The values of a dictionary in rising key order: `[m[k] for k in sorted(m)]`. */
  ghost function InOrder<T>(m: map<int, T>): seq<T> { ValuesOf(m, SortedKeys(m.Keys)) }

  function ValuesOf<T>(m: map<int, T>, keys: seq<int>): seq<T> {
    if keys == [] then []
    else (if keys[0] in m then [m[keys[0]]] else []) + ValuesOf(m, keys[1..])
  }

  /** A dictionary whose rows sit at their own keys. */
  ghost predicate Filed<T>(m: map<int, T>, key: T -> int) { forall k :: k in m ==> key(m[k]) == k }

  lemma AtStrict<T>(rows: seq<T>, key: T -> int, i: nat)
    requires Strict(rows, key) && i < |rows|
    ensures At(rows, key, key(rows[i])) == Some(rows[i])
  {
    var f := Find(rows, key, key(rows[i]));
  }

  lemma AtPrefix<T>(rows: seq<T>, key: T -> int, k: int)
    requires Strict(rows, key) && rows != []
    ensures var last := rows[|rows| - 1];
            At(rows[..|rows| - 1], key, k) == if key(last) == k then None else At(rows, key, k)
  {
    var init, i := rows[..|rows| - 1], Find(rows, key, k);
    var j := Find(init, key, k);
    if j < |init| {
      assert init[j] == rows[j];
      AtStrict(rows, key, j);
    } else {
      assert forall x :: 0 <= x < |init| ==> key(rows[x]) == key(init[x]) != k;
    }
  }

  /** Two strictly ordered lists that file the same rows are the same list. */
  lemma {:induction false} SameList<T>(a: seq<T>, b: seq<T>, key: T -> int)
    requires Strict(a, key) && Strict(b, key)
    requires forall k :: At(a, key, k) == At(b, key, k)
    ensures a == b
    decreases |a|
  {
    if a == [] {
      if b != [] { AtStrict(b, key, 0); }
    } else if b == [] {
      AtStrict(a, key, 0);
    } else {
      SameLast(a, b, key);
      var a', b' := a[..|a| - 1], b[..|b| - 1];
      SameFront(a, b, a', b', key);
      SameList(a', b', key);
      assert a == a' + [a[|a| - 1]] && b == b' + [b[|b| - 1]];
    }
  }

  lemma SameLast<T>(a: seq<T>, b: seq<T>, key: T -> int)
    requires Strict(a, key) && Strict(b, key) && a != [] && b != []
    requires forall k :: At(a, key, k) == At(b, key, k)
    ensures a[|a| - 1] == b[|b| - 1]
  {
    var x, y := a[|a| - 1], b[|b| - 1];
    AtStrict(a, key, |a| - 1);
    AtStrict(b, key, |b| - 1);
    LastIsGreatest(a, key, key(y));
    LastIsGreatest(b, key, key(x));
    hide At, Strict;
    assert At(a, key, key(x)) == At(b, key, key(x)) && At(a, key, key(y)) == At(b, key, key(y));
  }

  lemma SameFront<T>(a: seq<T>, b: seq<T>, a': seq<T>, b': seq<T>, key: T -> int)
    requires Strict(a, key) && Strict(b, key) && a != [] && b != [] && a[|a| - 1] == b[|b| - 1]
    requires a' == a[..|a| - 1] && b' == b[..|b| - 1]
    requires forall k :: At(a, key, k) == At(b, key, k)
    ensures forall k :: At(a', key, k) == At(b', key, k)
  {
    forall k ensures At(a', key, k) == At(b', key, k) {
      AtPrefix(a, key, k);
      AtPrefix(b, key, k);
      hide At, Strict;
      assert At(a, key, k) == At(b, key, k);
    }
  }

  lemma LastIsGreatest<T>(rows: seq<T>, key: T -> int, k: int)
    requires Strict(rows, key) && rows != []
    ensures At(rows, key, k).Some? ==> k <= key(rows[|rows| - 1])
  {
    var i := Find(rows, key, k);
    if i < |rows| - 1 { assert key(rows[i]) < key(rows[|rows| - 1]); }
  }

  lemma {:induction false} SortedKeysExact(s: set<int>)
    ensures forall k :: k in SortedKeys(s) <==> k in s
    ensures forall i, j :: 0 <= i < j < |SortedKeys(s)| ==> SortedKeys(s)[i] < SortedKeys(s)[j]
    decreases |s|
  {
    if s != {} {
      LeastExists(s);
      var keys := SortedKeys(s);
      var k, rest := keys[0], keys[1..];
      assert IsLeast(s, k) && rest == SortedKeys(s - {k}) && keys == [k] + rest;
      SortedKeysExact(s - {k});
      hide SortedKeys;
      forall j | 0 <= j < |rest| ensures k < rest[j] { assert rest[j] in rest; assert rest[j] in s - {k}; }
    }
  }

  /** The keys in rising order start with the least one. */
  lemma SortedHead(s: set<int>, k: int)
    requires IsLeast(s, k)
    ensures SortedKeys(s) == [k] + SortedKeys(s - {k})
  {
    LeastExists(s);
    var least := SortedKeys(s)[0];
    assert IsLeast(s, least);
  }

  /** `sorted(s)`. */
  method SortKeys(s: set<int>) returns (keys: seq<int>)
    ensures keys == SortedKeys(s)
  {
    keys := [];
    var left := s;
    while left != {}
      invariant SortedKeys(s) == keys + SortedKeys(left)
      decreases |left|
    {
      LeastExists(left);
      var k :| k in left && forall j :: j in left ==> k <= j;
      SortedHead(left, k);
      keys := keys + [k];
      left := left - {k};
    }
  }

  lemma {:induction false} ValuesAt<T>(m: map<int, T>, keys: seq<int>)
    requires forall i :: 0 <= i < |keys| ==> keys[i] in m
    ensures |ValuesOf(m, keys)| == |keys|
    ensures forall i :: 0 <= i < |keys| ==> ValuesOf(m, keys)[i] == m[keys[i]]
  {
    if keys != [] { ValuesAt(m, keys[1..]); }
  }

  /** Listing a dictionary keeps exactly its rows, in strict order. */
  lemma InOrderFiles<T>(m: map<int, T>, key: T -> int)
    requires Filed(m, key)
    ensures Strict(InOrder(m), key)
    ensures forall k :: At(InOrder(m), key, k) == Lookup(m, k)
  {
    var keys, rows := SortedKeys(m.Keys), InOrder(m);
    ListedByKey(m, key);
    assert Strict(rows, key) by {
      forall i, j | 0 <= i < j < |rows| ensures key(rows[i]) < key(rows[j]) { assert keys[i] < keys[j]; }
    }
    assert forall i :: 0 <= i < |rows| ==> key(rows[i]) in m;
    forall k ensures At(rows, key, k) == Lookup(m, k) {
      if k in m {
        var i :| 0 <= i < |keys| && keys[i] == k;
        AtStrict(rows, key, i);
      }
    }
  }

  lemma ListedByKey<T>(m: map<int, T>, key: T -> int)
    requires Filed(m, key)
    ensures var keys, rows := SortedKeys(m.Keys), InOrder(m);
            |rows| == |keys| &&
            (forall i :: 0 <= i < |keys| ==> keys[i] in m && rows[i] == m[keys[i]] && key(rows[i]) == keys[i]) &&
            (forall i, j :: 0 <= i < j < |keys| ==> keys[i] < keys[j]) &&
            forall k :: k in m ==> exists i :: 0 <= i < |keys| && keys[i] == k
  {
    var keys := SortedKeys(m.Keys);
    SortedKeysExact(m.Keys);
    forall i | 0 <= i < |keys| ensures keys[i] in m { assert keys[i] in keys; }
    ValuesAt(m, keys);
    forall k | k in m ensures exists i :: 0 <= i < |keys| && keys[i] == k { assert k in keys; }
  }

  lemma {:induction false} SortOfSorted<T>(rows: seq<T>, key: T -> int)
    requires Strict(rows, key)
    ensures SortRows(rows, key) == rows
  {
    if rows != [] {
      SortOfSorted(rows[..|rows| - 1], key);
      assert rows == rows[..|rows| - 1] + [rows[|rows| - 1]];
    }
  }

  /** Inserting a new key keeps the order strict and files exactly one more row. */
  lemma {:induction false} InsertFiles<T>(rows: seq<T>, key: T -> int, c: T)
    requires Strict(rows, key) && At(rows, key, key(c)) == None
    ensures Strict(InsertRow(rows, key, c), key)
    ensures forall k :: At(InsertRow(rows, key, c), key, k) == if k == key(c) then Some(c) else At(rows, key, k)
  {
    if rows == [] || key(rows[|rows| - 1]) <= key(c) {
      AppendFiles(rows, key, c);
    } else {
      var init, last := rows[..|rows| - 1], rows[|rows| - 1];
      AtPrefix(rows, key, key(c));
      InsertFiles(init, key, c);
      var inner := InsertRow(init, key, c);
      forall i | 0 <= i < |inner| ensures key(inner[i]) < key(last) {
        AtStrict(inner, key, i);
        if key(inner[i]) != key(c) {
          var j := Find(init, key, key(inner[i]));
          assert At(init, key, key(inner[i])).Some?;
          assert rows[j] == init[j];
        }
      }
      assert Strict(inner + [last], key);
      forall k ensures At(inner + [last], key, k) == if k == key(c) then Some(c) else At(rows, key, k) {
        AtPrefix(rows, key, k);
        assert (inner + [last])[..|inner|] == inner;
        AtPrefix(inner + [last], key, k);
        if k == key(last) {
          AtStrict(inner + [last], key, |inner|);
          AtStrict(rows, key, |rows| - 1);
        }
      }
    }
  }

  lemma AppendFiles<T>(rows: seq<T>, key: T -> int, c: T)
    requires Strict(rows, key)
    requires rows != [] ==>
             key(rows[|rows| - 1]) < key(c) || (key(rows[|rows| - 1]) <= key(c) && At(rows, key, key(c)) == None)
    ensures Strict(rows + [c], key)
    ensures forall k :: At(rows + [c], key, k) == if k == key(c) then Some(c) else At(rows, key, k)
  {
    if rows != [] { AtStrict(rows, key, |rows| - 1); }
    assert forall i :: 0 <= i < |rows| ==> key(rows[i]) < key(c);
    forall k ensures At(rows + [c], key, k) == if k == key(c) then Some(c) else At(rows, key, k) {
      assert (rows + [c])[..|rows|] == rows;
      AtPrefix(rows + [c], key, k);
      AtStrict(rows + [c], key, |rows|);
    }
  }

  lemma ReplaceFiles<T>(rows: seq<T>, key: T -> int, i: nat, c: T)
    requires Strict(rows, key) && i < |rows| && key(c) == key(rows[i])
    ensures Strict(rows[i := c], key)
    ensures forall k :: At(rows[i := c], key, k) == if k == key(c) then Some(c) else At(rows, key, k)
  {
    var rows' := rows[i := c];
    assert forall j :: 0 <= j < |rows| ==> key(rows'[j]) == key(rows[j]);
    forall k ensures At(rows', key, k) == if k == key(c) then Some(c) else At(rows, key, k) {
      AtStrict(rows', key, i);
      var f, g := Find(rows, key, k), Find(rows', key, k);
      if k != key(c) { assert f == g; }
    }
  }
}
