/** When events are due; what the store keeps. */
module EventRules {
  import opened Basics

  /** `COOLDOWN_MINUTES * 60`: once fired, a key is quiet this long unless its severity rises. */
  const COOLDOWN_SECONDS := 900

  datatype Severity = Low | Medium | High {
    function Rank(): int {
      match this case Low => 1 case Medium => 2 case High => 3
    }
  }

  datatype Key = Key(eventType: string, subject: string, counterpart: string)

  /** `id` is the number written by the sixteen hexadecimal digits of the event id. */
  datatype Event = Event(id: nat, key: Key, session: int, barEpoch: int, severity: Severity, value: real)

  /** One entry of the cooldown table: the last firing's bar epoch and severity rank. */
  datatype Fired = Fired(epoch: int, rank: int)

  type Table = map<Key, Fired>

  datatype Outcome = Outcome(table: Table, events: seq<Event>)

  predicate Due(table: Table, key: Key, epoch: int, rank: int) {
    key !in table || epoch - table[key].epoch >= COOLDOWN_SECONDS || rank > table[key].rank
  }

  /** The sort key: severity falling, then absolute magnitude falling, then id rising. */
  predicate Before(a: Event, b: Event) {
    a.severity.Rank() > b.severity.Rank() ||
    (a.severity == b.severity &&
     (AbsReal(a.value) > AbsReal(b.value) || (AbsReal(a.value) == AbsReal(b.value) && a.id <= b.id)))
  }

  function Insert(e: Event, sorted: seq<Event>): seq<Event> {
    if sorted == [] then [e]
    else if Before(e, sorted[0]) then [e] + sorted
    else [sorted[0]] + Insert(e, sorted[1..])
  }

  /** The candidates of one frame in the order they are considered. */
  function Order(candidates: seq<Event>): seq<Event> {
    if candidates == [] then [] else Insert(candidates[0], Order(candidates[1..]))
  }

  lemma {:induction false} InsertPermutes(e: Event, sorted: seq<Event>)
    ensures multiset(Insert(e, sorted)) == multiset(sorted) + multiset{e}
  {
    if sorted != [] && !Before(e, sorted[0]) {
      InsertPermutes(e, sorted[1..]);
      assert sorted == [sorted[0]] + sorted[1..];
    }
  }

  lemma {:induction false} OrderPermutes(candidates: seq<Event>)
    ensures multiset(Order(candidates)) == multiset(candidates)
  {
    if candidates != [] {
      OrderPermutes(candidates[1..]);
      InsertPermutes(candidates[0], Order(candidates[1..]));
      assert candidates == [candidates[0]] + candidates[1..];
    }
  }

  ghost predicate FallingRanks(s: seq<Event>) {
    forall i, j :: 0 <= i < j < |s| ==> s[i].severity.Rank() >= s[j].severity.Rank()
  }

  lemma {:induction false} InsertFalling(e: Event, sorted: seq<Event>)
    requires FallingRanks(sorted)
    ensures FallingRanks(Insert(e, sorted))
  {
    if sorted != [] && !Before(e, sorted[0]) {
      InsertFalling(e, sorted[1..]);
      var r := Insert(e, sorted[1..]);
      InsertPermutes(e, sorted[1..]);
      forall j | 0 <= j < |r| ensures sorted[0].severity.Rank() >= r[j].severity.Rank() {
        assert r[j] in multiset(r);
        assert r[j] in multiset(sorted[1..]) + multiset{e};
      }
    }
  }

  lemma {:induction false} OrderFalling(candidates: seq<Event>)
    ensures FallingRanks(Order(candidates))
  {
    if candidates != [] {
      OrderFalling(candidates[1..]);
      InsertFalling(candidates[0], Order(candidates[1..]));
    }
  }

  lemma OrderMembers(candidates: seq<Event>, e: Event)
    ensures e in Order(candidates) <==> e in candidates
  {
    OrderPermutes(candidates);
    assert e in multiset(Order(candidates)) <==> e in multiset(candidates);
  }

  /** The body of the loop in `build`, over candidates already in order. */
  function Fire(table: Table, candidates: seq<Event>): Outcome
    decreases |candidates|
  {
    if candidates == [] then Outcome(table, [])
    else
      var e := candidates[0];
      if Due(table, e.key, e.barEpoch, e.severity.Rank()) then
        var rest := Fire(table[e.key := Fired(e.barEpoch, e.severity.Rank())], candidates[1..]);
        Outcome(rest.table, [e] + rest.events)
      else
        Fire(table, candidates[1..])
  }

  function HasId(rows: seq<Event>, id: nat): bool {
    exists i :: 0 <= i < |rows| && rows[i].id == id
  }

  /** Insert-or-ignore: the events that `add` stores, in order. */
  function New(rows: seq<Event>, events: seq<Event>): seq<Event>
    decreases |events|
  {
    if events == [] then []
    else if HasId(rows, events[0].id) then New(rows, events[1..])
    else [events[0]] + New(rows + [events[0]], events[1..])
  }

  predicate UniqueIds(rows: seq<Event>) {
    forall i, j :: 0 <= i < j < |rows| ==> rows[i].id != rows[j].id
  }

  function OfSession(rows: seq<Event>, session: int): seq<Event> {
    if rows == [] then []
    else
      var head := OfSession(rows[..|rows| - 1], session);
      var e := rows[|rows| - 1];
      if e.session == session then head + [e] else head
  }

  function OfKey(rows: seq<Event>, key: Key): seq<Event> {
    if rows == [] then []
    else
      var head := OfKey(rows[..|rows| - 1], key);
      var e := rows[|rows| - 1];
      if e.key == key then head + [e] else head
  }

  /** Rows by rising bar epoch, equal epochs in stored order (`ORDER BY bar_epoch`). */
  function ByEpoch(rows: seq<Event>): seq<Event> {
    if rows == [] then [] else InsertEpoch(ByEpoch(rows[..|rows| - 1]), rows[|rows| - 1])
  }

  function InsertEpoch(sorted: seq<Event>, e: Event): seq<Event> {
    if sorted == [] || sorted[|sorted| - 1].barEpoch <= e.barEpoch then sorted + [e]
    else InsertEpoch(sorted[..|sorted| - 1], e) + [sorted[|sorted| - 1]]
  }

  /** A dictionary built from rows in order: the last row of a key stands. */
  function Tabulate(table: Table, rows: seq<Event>): Table
    decreases |rows|
  {
    if rows == [] then table
    else Tabulate(table[rows[0].key := Fired(rows[0].barEpoch, rows[0].severity.Rank())], rows[1..])
  }

  /** The cooldown table rebuilt from the store. */
  function LastFired(rows: seq<Event>, session: int): Table {
    Tabulate(map[], ByEpoch(OfSession(rows, session)))
  }

  // ---- Sequences ----

  lemma {:induction false} OfSessionConcat(a: seq<Event>, b: seq<Event>, session: int)
    ensures OfSession(a + b, session) == OfSession(a, session) + OfSession(b, session)
  {
    if b == [] {
      assert a + b == a;
    } else {
      assert (a + b)[..|a + b| - 1] == a + b[..|b| - 1];
      OfSessionConcat(a, b[..|b| - 1], session);
    }
  }

  lemma {:induction false} OfKeyConcat(a: seq<Event>, b: seq<Event>, key: Key)
    ensures OfKey(a + b, key) == OfKey(a, key) + OfKey(b, key)
  {
    if b == [] {
      assert a + b == a;
    } else {
      assert (a + b)[..|a + b| - 1] == a + b[..|b| - 1];
      OfKeyConcat(a, b[..|b| - 1], key);
    }
  }

  lemma {:induction false} OfSessionMembers(rows: seq<Event>, session: int, e: Event)
    ensures e in OfSession(rows, session) <==> e in rows && e.session == session
  {
    if rows != [] {
      OfSessionMembers(rows[..|rows| - 1], session, e);
      assert rows == rows[..|rows| - 1] + [rows[|rows| - 1]];
    }
  }

  lemma {:induction false} OfSessionAll(rows: seq<Event>, session: int)
    requires forall e :: e in rows ==> e.session == session
    ensures OfSession(rows, session) == rows
  {
    if rows != [] {
      OfSessionAll(rows[..|rows| - 1], session);
      assert rows == rows[..|rows| - 1] + [rows[|rows| - 1]];
    }
  }

  lemma {:induction false} OfSessionNone(rows: seq<Event>, session: int)
    requires forall e :: e in rows ==> e.session != session
    ensures OfSession(rows, session) == []
  {
    if rows != [] {
      OfSessionNone(rows[..|rows| - 1], session);
    }
  }

  lemma {:induction false} TabulateConcat(table: Table, a: seq<Event>, b: seq<Event>)
    ensures Tabulate(table, a + b) == Tabulate(Tabulate(table, a), b)
    decreases |a|
  {
    if a == [] {
      assert a + b == b;
    } else {
      assert (a + b)[1..] == a[1..] + b;
      TabulateConcat(table[a[0].key := Fired(a[0].barEpoch, a[0].severity.Rank())], a[1..], b);
    }
  }

  lemma {:induction false} ByEpochOfSorted(rows: seq<Event>)
    requires forall i, j :: 0 <= i < j < |rows| ==> rows[i].barEpoch <= rows[j].barEpoch
    ensures ByEpoch(rows) == rows
  {
    if rows != [] {
      ByEpochOfSorted(rows[..|rows| - 1]);
      assert rows == rows[..|rows| - 1] + [rows[|rows| - 1]];
    }
  }

  lemma {:induction false} InsertEpochMembers(sorted: seq<Event>, e: Event, f: Event)
    ensures f in InsertEpoch(sorted, e) <==> f in sorted || f == e
  {
    if sorted != [] && sorted[|sorted| - 1].barEpoch > e.barEpoch {
      InsertEpochMembers(sorted[..|sorted| - 1], e, f);
      assert sorted == sorted[..|sorted| - 1] + [sorted[|sorted| - 1]];
    }
  }

  lemma {:induction false} ByEpochMembers(rows: seq<Event>, f: Event)
    ensures f in ByEpoch(rows) <==> f in rows
  {
    if rows != [] {
      ByEpochMembers(rows[..|rows| - 1], f);
      InsertEpochMembers(ByEpoch(rows[..|rows| - 1]), rows[|rows| - 1], f);
      assert rows == rows[..|rows| - 1] + [rows[|rows| - 1]];
    }
  }

  ghost predicate Rising(rows: seq<Event>) {
    forall i, j :: 0 <= i < j < |rows| ==> rows[i].barEpoch <= rows[j].barEpoch
  }

  lemma {:induction false} InsertEpochRises(sorted: seq<Event>, e: Event)
    requires Rising(sorted)
    ensures Rising(InsertEpoch(sorted, e))
  {
    if sorted != [] && sorted[|sorted| - 1].barEpoch > e.barEpoch {
      var init, last := sorted[..|sorted| - 1], sorted[|sorted| - 1];
      InsertEpochRises(init, e);
      var r := InsertEpoch(init, e);
      forall i | 0 <= i < |r| ensures r[i].barEpoch <= last.barEpoch {
        InsertEpochMembers(init, e, r[i]);
        if r[i] in init { var j :| 0 <= j < |init| && init[j] == r[i]; }
      }
    }
  }

  lemma {:induction false} ByEpochRises(rows: seq<Event>)
    ensures Rising(ByEpoch(rows))
  {
    if rows != [] {
      ByEpochRises(rows[..|rows| - 1]);
      InsertEpochRises(ByEpoch(rows[..|rows| - 1]), rows[|rows| - 1]);
    }
  }

  /** The entry an event leaves in the table. */
  function EntryOf(e: Event): Fired { Fired(e.barEpoch, e.severity.Rank()) }

  /** The latest event of a key among rising rows is the one tabulated. */
  lemma {:induction false} TabulateLatest(rows: seq<Event>, key: Key) returns (e: Option<Event>)
    requires Rising(rows)
    ensures Lookup(Tabulate(map[], rows), key) == if e.Some? then Some(EntryOf(e.value)) else None
    ensures e.None? ==> forall f :: f in rows ==> f.key != key
    ensures e.Some? ==> e.value in rows && e.value.key == key
    ensures e.Some? ==> forall f :: f in rows && f.key == key ==> f.barEpoch <= e.value.barEpoch
  {
    if rows == [] {
      e := None;
    } else {
      var init, last := rows[..|rows| - 1], rows[|rows| - 1];
      e := TabulateLatest(init, key);
      assert rows == init + [last];
      TabulateConcat(map[], init, [last]);
      if last.key == key {
        e := Some(last);
        forall f | f in rows ensures f.barEpoch <= last.barEpoch { var i :| 0 <= i < |rows| && rows[i] == f; }
      }
    }
  }

  ghost predicate IsLatest(rows: seq<Event>, s: int, key: Key, e: Event) {
    e in rows && e.session == s && e.key == key &&
    forall f :: f in rows && f.session == s && f.key == key ==> f.barEpoch <= e.barEpoch
  }

  /** The rebuilt table holds the latest stored event of every key of the session that has one. */
  lemma LastFiredIsLatest(rows: seq<Event>, s: int, key: Key) returns (e: Option<Event>)
    ensures Lookup(LastFired(rows, s), key) == if e.Some? then Some(EntryOf(e.value)) else None
    ensures e.None? ==> forall f :: f in rows && f.session == s ==> f.key != key
    ensures e.Some? ==> IsLatest(rows, s, key, e.value)
  {
    var own := OfSession(rows, s);
    ByEpochRises(own);
    e := TabulateLatest(ByEpoch(own), key);
    forall f ensures f in ByEpoch(own) <==> f in rows && f.session == s {
      ByEpochMembers(own, f);
      OfSessionMembers(rows, s, f);
    }
  }

  // ---- The store ----

  lemma HasIdAppend(rows: seq<Event>, e: Event, id: nat)
    ensures HasId(rows + [e], id) <==> HasId(rows, id) || e.id == id
  {
    var rows' := rows + [e];
    assert rows'[|rows|] == e;
    if HasId(rows, id) {
      var i :| 0 <= i < |rows| && rows[i].id == id;
      assert rows'[i].id == id;
    }
  }

  /** Adding stores each id once: ids stay unique, every offered id ends up stored. */
  lemma {:induction false} AddKeepsUnique(rows: seq<Event>, events: seq<Event>)
    requires UniqueIds(rows)
    ensures UniqueIds(rows + New(rows, events))
    ensures forall e :: e in events ==> HasId(rows + New(rows, events), e.id)
    ensures forall e :: e in New(rows, events) ==> e in events && !HasId(rows, e.id)
    decreases |events|
  {
    if events != [] {
      var e := events[0];
      if HasId(rows, e.id) {
        AddKeepsUnique(rows, events[1..]);
        var i :| 0 <= i < |rows| && rows[i].id == e.id;
        assert (rows + New(rows, events))[i].id == e.id;
      } else {
        var rows' := rows + [e];
        AddKeepsUnique(rows', events[1..]);
        assert rows + New(rows, events) == rows' + New(rows', events[1..]);
        assert (rows' + New(rows', events[1..]))[|rows|] == e;
        forall f | f in New(rows, events) ensures f in events && !HasId(rows, f.id) {
          if f != e {
            assert f in New(rows', events[1..]);
            HasIdAppend(rows, e, f.id);
          }
        }
      }
    }
  }

  /** Adding again what is already stored changes nothing. */
  lemma {:induction false} AddStored(rows: seq<Event>, events: seq<Event>)
    requires forall e :: e in events ==> HasId(rows, e.id)
    ensures New(rows, events) == []
  {
    if events != [] {
      assert events[0] in events;
      AddStored(rows, events[1..]);
    }
  }

  lemma {:induction false} AddFresh(rows: seq<Event>, events: seq<Event>)
    requires UniqueIds(events)
    requires forall e :: e in events ==> !HasId(rows, e.id)
    ensures New(rows, events) == events
    decreases |events|
  {
    if events != [] {
      var e, rows' := events[0], rows + [events[0]];
      assert e in events;
      forall f | f in events[1..] ensures !HasId(rows', f.id) {
        var k :| 0 <= k < |events[1..]| && events[1..][k] == f;
        assert events[k + 1] == f && f in events;
        HasIdAppend(rows, e, f.id);
      }
      AddFresh(rows', events[1..]);
    }
  }

  // ---- One frame, one key ----

  /** The highest-ranked candidate of a key: the first one in order. */
  function Leader(candidates: seq<Event>, key: Key): Option<Event> {
    if candidates == [] then None
    else if candidates[0].key == key then Some(candidates[0])
    else Leader(candidates[1..], key)
  }

  lemma {:induction false} LeaderIsMember(candidates: seq<Event>, key: Key)
    ensures match Leader(candidates, key)
            case None => forall e :: e in candidates ==> e.key != key
            case Some(e) => e in candidates && e.key == key
  {
    if candidates != [] {
      assert candidates == [candidates[0]] + candidates[1..];
      if candidates[0].key != key { LeaderIsMember(candidates[1..], key); }
    }
  }

  lemma {:induction false} LeaderIsHighest(candidates: seq<Event>, key: Key)
    requires FallingRanks(candidates)
    ensures forall e :: e in candidates && e.key == key ==>
      Leader(candidates, key).Some? && e.severity.Rank() <= Leader(candidates, key).value.severity.Rank()
  {
    if candidates != [] {
      if candidates[0].key != key {
        LeaderIsHighest(candidates[1..], key);
        assert candidates == [candidates[0]] + candidates[1..];
      }
    }
  }

  lemma {:induction false} FireQuietKey(table: Table, candidates: seq<Event>, key: Key)
    requires forall e :: e in candidates && e.key == key ==> !Due(table, key, e.barEpoch, e.severity.Rank())
    ensures Lookup(Fire(table, candidates).table, key) == Lookup(table, key)
    ensures forall e :: e in Fire(table, candidates).events ==> e.key != key
    decreases |candidates|
  {
    if candidates != [] {
      var e := candidates[0];
      assert e in candidates;
      if Due(table, e.key, e.barEpoch, e.severity.Rank()) {
        FireQuietKey(table[e.key := Fired(e.barEpoch, e.severity.Rank())], candidates[1..], key);
      } else {
        FireQuietKey(table, candidates[1..], key);
      }
    }
  }

  /**
   * What one frame does to one key depends only on that key's entry and on its leader:
   * the leader fires if it is due and nothing else of that key does.
   */
  lemma {:induction false} FireOneKey(table: Table, candidates: seq<Event>, key: Key, epoch: int)
    requires FallingRanks(candidates)
    requires forall e :: e in candidates ==> e.barEpoch == epoch
    ensures var leader := Leader(candidates, key);
            var out := Fire(table, candidates);
            if leader.Some? && Due(table, key, epoch, leader.value.severity.Rank())
            then Lookup(out.table, key) == Some(Fired(epoch, leader.value.severity.Rank())) &&
                 leader.value in out.events && forall e :: e in out.events && e.key == key ==> e == leader.value
            else Lookup(out.table, key) == Lookup(table, key) && forall e :: e in out.events ==> e.key != key
    decreases |candidates|
  {
    if candidates != [] {
      var e := candidates[0];
      assert e in candidates;
      var rank := e.severity.Rank();
      var table' := table[e.key := Fired(epoch, rank)];
      if e.key == key {
        if Due(table, key, epoch, rank) {
          FireQuietKey(table', candidates[1..], key);
        } else {
          FireQuietKey(table, candidates, key);
        }
      } else if Due(table, e.key, epoch, rank) {
        FireOneKey(table', candidates[1..], key, epoch);
      } else {
        FireOneKey(table, candidates[1..], key, epoch);
      }
    }
  }

  /**
   * One frame, one key, without the order of the loop: an event that fires was a due candidate and no other
   * candidate of its key ranks above it, one fires exactly when any candidate is due, and only one does.
   */
  lemma HighestFires(table: Table, candidates: seq<Event>, key: Key, epoch: int)
    requires FallingRanks(candidates)
    requires forall e :: e in candidates ==> e.barEpoch == epoch
    ensures var out := Fire(table, candidates).events;
            (forall e, f :: e in out && e.key == key && f in candidates && f.key == key ==>
              e in candidates && Due(table, key, epoch, e.severity.Rank()) && f.severity.Rank() <= e.severity.Rank()) &&
            ((exists e :: e in out && e.key == key) <==>
             exists e :: e in candidates && e.key == key && Due(table, key, epoch, e.severity.Rank())) &&
            (forall e, f :: e in out && f in out && e.key == key && f.key == key ==> e == f)
  {
    FireOneKey(table, candidates, key, epoch);
    LeaderIsMember(candidates, key);
    LeaderIsHighest(candidates, key);
    hide Fire, Leader, FallingRanks;
  }

  lemma {:induction false} FireMembers(table: Table, candidates: seq<Event>)
    ensures forall e :: e in Fire(table, candidates).events ==> e in candidates
    decreases |candidates|
  {
    if candidates != [] {
      var e := candidates[0];
      if Due(table, e.key, e.barEpoch, e.severity.Rank()) {
        FireMembers(table[e.key := Fired(e.barEpoch, e.severity.Rank())], candidates[1..]);
      } else {
        FireMembers(table, candidates[1..]);
      }
    }
  }

  /** The table after a frame is the old one overwritten by the frame's events. */
  lemma {:induction false} FireTabulates(table: Table, candidates: seq<Event>)
    ensures Fire(table, candidates).table == Tabulate(table, Fire(table, candidates).events)
    decreases |candidates|
  {
    if candidates != [] {
      var e := candidates[0];
      if Due(table, e.key, e.barEpoch, e.severity.Rank()) {
        FireTabulates(table[e.key := Fired(e.barEpoch, e.severity.Rank())], candidates[1..]);
      } else {
        FireTabulates(table, candidates[1..]);
      }
    }
  }

  ghost predicate DistinctKeys(s: seq<Event>) {
    forall i, j :: 0 <= i < j < |s| ==> s[i].key != s[j].key
  }

  /** Tabulating the first of some events of distinct keys: their keys as after all of them, the others as before. */
  lemma TabulatePrefix(table: Table, events: seq<Event>, k: nat, key: Key)
    requires DistinctKeys(events) && k <= |events|
    ensures Lookup(Tabulate(table, events[..k]), key) ==
            if exists e :: e in events[..k] && e.key == key then Lookup(Tabulate(table, events), key)
            else Lookup(table, key)
  {
    var first, rest := events[..k], events[k..];
    assert events == first + rest;
    TabulateConcat(table, first, rest);
    if exists e :: e in first && e.key == key {
      var e :| e in first && e.key == key;
      var i :| 0 <= i < k && first[i] == e;
      assert events[i].key == key;
      forall f | f in rest ensures f.key != key {
        var j :| 0 <= j < |rest| && rest[j] == f;
        assert events[k + j].key == f.key;
      }
      TabulateElsewhere(Tabulate(table, first), rest, key);
    } else {
      TabulateElsewhere(table, first, key);
    }
  }

  lemma {:induction false} TabulateElsewhere(table: Table, events: seq<Event>, key: Key)
    requires forall e :: e in events ==> e.key != key
    ensures Lookup(Tabulate(table, events), key) == Lookup(table, key)
    decreases |events|
  {
    if events != [] {
      assert events[0] in events;
      TabulateElsewhere(table[events[0].key := Fired(events[0].barEpoch, events[0].severity.Rank())], events[1..], key);
    }
  }

  lemma FirstDistinct(e: Event, rest: seq<Event>)
    requires DistinctKeys(rest) && forall f :: f in rest ==> f.key != e.key
    ensures DistinctKeys([e] + rest)
  {
    assert forall j :: 0 <= j < |rest| ==> rest[j] in rest;
  }

  lemma FallingRest(s: seq<Event>)
    requires s != [] && FallingRanks(s)
    ensures FallingRanks(s[1..]) && forall f :: f in s[1..] ==> f in s && f.severity.Rank() <= s[0].severity.Rank()
  {
    forall f | f in s[1..] ensures f in s && f.severity.Rank() <= s[0].severity.Rank() {
      var j :| 0 <= j < |s[1..]| && s[1..][j] == f;
      assert s[j + 1] == f;
    }
  }

  /** No key fires twice in one frame. */
  lemma {:induction false} FireDistinctKeys(table: Table, candidates: seq<Event>, epoch: int)
    requires FallingRanks(candidates)
    requires forall e :: e in candidates ==> e.barEpoch == epoch
    ensures DistinctKeys(Fire(table, candidates).events)
    decreases |candidates|
  {
    if candidates != [] {
      var e, later := candidates[0], candidates[1..];
      assert e in candidates;
      var rank := e.severity.Rank();
      FallingRest(candidates);
      hide FallingRanks, DistinctKeys;
      if Due(table, e.key, epoch, rank) {
        var table' := table[e.key := Fired(epoch, rank)];
        FireDistinctKeys(table', later, epoch);
        FireQuietKey(table', later, e.key);
        var rest := Fire(table', later).events;
        FirstDistinct(e, rest);
      } else {
        FireDistinctKeys(table, later, epoch);
      }
    }
  }
}
