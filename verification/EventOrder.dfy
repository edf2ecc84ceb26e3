/** Which event of a frame goes first. */
module EventOrder {
  // The order the candidates of a frame are considered in, and so which of one key fires, in terms of their
  // severities, magnitudes and ids.

  import opened Basics
  import opened EventRules

  predicate Graver(a: Severity, b: Severity) { (a == High && b != High) || (a == Medium && b == Low) }

  function Size(v: real): real { if v >= 0.0 then v else -v }

  /** Graver first, of one severity the greater magnitude, of one magnitude the lower id. */
  predicate Precedes(a: Event, b: Event) {
    Graver(a.severity, b.severity) ||
    (a.severity == b.severity && (Size(a.value) > Size(b.value) || (Size(a.value) == Size(b.value) && a.id < b.id)))
  }

  ghost predicate InOrderOf(s: seq<Event>) { forall i, j :: 0 <= i < j < |s| ==> !Precedes(s[j], s[i]) }

  lemma PrecedesIsBefore(a: Event, b: Event)
    ensures Before(a, b) <==> !Precedes(b, a)
  {
  }

  lemma PrecedesChains(a: Event, b: Event, c: Event)
    ensures !Precedes(b, a) && !Precedes(c, b) ==> !Precedes(c, a)
  {
  }

  lemma {:induction false} InsertKeepsOrder(e: Event, sorted: seq<Event>)
    requires InOrderOf(sorted)
    ensures InOrderOf(Insert(e, sorted))
  {
    if sorted != [] {
      PrecedesIsBefore(e, sorted[0]);
      if Before(e, sorted[0]) {
        forall j | 0 <= j < |sorted| ensures !Precedes(sorted[j], e) { PrecedesChains(e, sorted[0], sorted[j]); }
      } else {
        InsertKeepsOrder(e, sorted[1..]);
        var r := Insert(e, sorted[1..]);
        InsertPermutes(e, sorted[1..]);
        PrecedesIsBefore(sorted[0], e);
        forall j | 0 <= j < |r| ensures !Precedes(r[j], sorted[0]) {
          assert r[j] in multiset(r);
          assert r[j] in multiset(sorted[1..]) + multiset{e};
          assert r[j] == e || r[j] in sorted[1..];
          NotBoth(sorted[0], e);
        }
      }
    }
    hide Precedes, Before;
  }

  lemma NotBoth(a: Event, b: Event)
    ensures Precedes(a, b) ==> !Precedes(b, a)
  {
  }

  /** Candidates are considered in that order, each once. */
  lemma {:induction false} OrderedByGravity(candidates: seq<Event>)
    ensures InOrderOf(Order(candidates)) && multiset(Order(candidates)) == multiset(candidates)
  {
    OrderPermutes(candidates);
    if candidates != [] {
      OrderedByGravity(candidates[1..]);
      InsertKeepsOrder(candidates[0], Order(candidates[1..]));
    }
  }

  lemma {:induction false} LeaderIsFirst(s: seq<Event>, key: Key, f: Event)
    requires InOrderOf(s) && f in s && f.key == key
    ensures Leader(s, key).Some? && !Precedes(f, Leader(s, key).value)
  {
    if s[0].key == key {
      var i :| 0 <= i < |s| && s[i] == f;
      NotBoth(f, f);
    } else {
      assert s == [s[0]] + s[1..];
      LeaderIsFirst(s[1..], key, f);
    }
  }

  /** No firing of the key is known, or one fifteen minutes ago or more, or one less severe. */
  predicate MayFire(table: Table, e: Event, epoch: int) {
    e.key !in table || epoch - table[e.key].epoch >= 900 || e.severity.Rank() > table[e.key].rank
  }

  /** The event goes before all other candidates of its key. */
  ghost predicate GoesFirst(candidates: seq<Event>, e: Event) {
    e in candidates && forall f :: f in candidates && f.key == e.key && f != e ==> Precedes(e, f)
  }

  /** Of one frame's candidates of a key only one that none precedes fires, and one that goes first if it may. */
  lemma FirstByGravityFires(table: Table, candidates: seq<Event>, epoch: int, e: Event)
    requires forall f :: f in candidates ==> f.barEpoch == epoch
    ensures var fired := Fire(table, Order(candidates)).events;
            (e in fired ==> e in candidates && MayFire(table, e, epoch) &&
                            forall f :: f in candidates && f.key == e.key ==> !Precedes(f, e)) &&
            (GoesFirst(candidates, e) && MayFire(table, e, epoch) ==> e in fired)
  {
    var ordered, key := Order(candidates), e.key;
    OrderedByGravity(candidates);
    OrderFalling(candidates);
    forall f ensures f in ordered <==> f in candidates { OrderMembers(candidates, f); }
    FireOneKey(table, ordered, key, epoch);
    LeaderIsMember(ordered, key);
    forall f | f in candidates && f.key == key
      ensures Leader(ordered, key).Some? && !Precedes(f, Leader(ordered, key).value)
    {
      LeaderIsFirst(ordered, key, f);
    }
    hide Order, Fire, Leader, Precedes, InOrderOf, FallingRanks;
  }
}
