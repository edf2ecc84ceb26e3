/** What a failing store costs. */
module EventLosses {
  // A minute during which the store raises is stepped again, but by then the cooldown table has moved
  // on by the events entered before. Those are lost to that pass over the session, and a later pass may
  // bring them back.

  import opened Basics
  import opened EventRules
  import opened EventRestart
  import opened SessionClock
  import opened EventRuns

  /** Whatever the history: stored is exactly what some visit brought, each once. */
  lemma WhichEventsAreStored(market: Market, h: Hash, ops: seq<Op>, e: Event)
    requires Faithful(market, h) && NoCollision(market)
    ensures e in Run(market, ops).rows <==> Brought(market, Track(market, ops).visits, e)
    ensures Run(market, ops).emitted == Run(market, ops).rows && UniqueIds(Run(market, ops).rows)
    ensures e in Run(market, ops).rows ==> e in Reference(market, e.session, Run(market, ops).Reached(e.session)).events
  {
    RunKeeps(market, h, ops);
    TrackIsRun(market, ops);
    if e in Run(market, ops).rows {
      var v := StoredOrigin(market, h, Track(market, ops), e);
    }
  }

  /** Each visit to the minute came after a failed attempt that entered the key, or held the key back. */
  ghost predicate MissedByAll(market: Market, visits: seq<Visit>, s: int, m: nat, key: Key) {
    forall i :: 0 <= i < |visits| && visits[i].session == s && visits[i].minute == m ==>
      key in visits[i].entered || HeldBack(market, s, visits[i].start, m, key)
  }

  /** Only visits to its own minute can bring an event. */
  lemma OwnMinute(market: Market, h: Hash, s: int, m: nat, key: Key, t: int, start: Table, n: nat)
    requires Faithful(market, h) && FiredAt(market, s, m, key) && m <= LAST_MINUTE && n <= LAST_MINUTE
    ensures Brings(market, t, start, n, LeaderAt(market, s, m, key).value) <==>
            t == s && n == m && !HeldBack(market, s, start, m, key)
  {
    var e := LeaderAt(market, s, m, key).value;
    LeaderStamped(market, h, s, m, key);
    if Brings(market, t, start, n, e) { LeaderStamped(market, h, t, n, e.key); }
  }

  lemma LeaderStamped(market: Market, h: Hash, s: int, m: nat, key: Key)
    requires Faithful(market, h) && LeaderAt(market, s, m, key).Some?
    ensures var e := LeaderAt(market, s, m, key).value; e.key == key && Stamped(h, s, m, e)
  {
    OrderedFrame(market, h, s, m);
    LeaderIsMember(Order(Candidates(market, s, m)), key);
  }

  /**
   * Exactly which events are missing at the end of any history: those of the uninterrupted run whose
   * minute, each time a pass got through it, had been tried before and had the event entered in vain, or
   * held it back for a firing that the table the pass began with already knew.
   */
  lemma WhichEventsAreMissing(market: Market, h: Hash, ops: seq<Op>, s: int, m: nat, key: Key)
    requires Faithful(market, h) && NoCollision(market)
    requires FiredAt(market, s, m, key) && m <= LAST_MINUTE
    ensures LeaderAt(market, s, m, key).value !in Run(market, ops).rows <==>
            MissedByAll(market, Track(market, ops).visits, s, m, key)
  {
    var e, visits := LeaderAt(market, s, m, key).value, Track(market, ops).visits;
    RunKeeps(market, h, ops);
    WhichEventsAreStored(market, h, ops, e);
    LeaderStamped(market, h, s, m, key);
    forall i | 0 <= i < |visits|
      ensures BroughtBy(market, visits[i], e) <==>
              visits[i].session == s && visits[i].minute == m && key !in visits[i].entered &&
              !HeldBack(market, s, visits[i].start, m, key)
    {
      assert Reaches(Track(market, ops).world, visits[i]);
      OwnMinute(market, h, s, m, key, visits[i].session, visits[i].start, visits[i].minute);
    }
    hide Brings, BroughtBy, HeldBack;
  }

  // ---- A failed attempt and the retry ----

  /**
   * The retry of a minute of which the first `k` due events were entered in vain: it fires exactly the
   * others, none of them if all were entered.
   */
  lemma RetryFiresTheRest(table: Table, candidates: seq<Event>, epoch: int, k: nat, e: Event)
    requires FallingRanks(candidates) && forall f :: f in candidates ==> f.barEpoch == epoch
    requires k <= |Fire(table, candidates).events|
    ensures var fired := Fire(table, candidates).events;
            e in Fire(Tabulate(table, fired[..k]), candidates).events <==> e in fired && e !in fired[..k]
  {
    var fired := Fire(table, candidates).events;
    var first := fired[..k];
    FireDistinctKeys(table, candidates, epoch);
    FireTabulates(table, candidates);
    TabulatePrefix(table, fired, k, e.key);
    FireOneKey(table, candidates, e.key, epoch);
    FireOneKey(Tabulate(table, first), candidates, e.key, epoch);
    hide Fire, Tabulate, FallingRanks;
    forall f | f in first ensures f in fired {}
    if f :| f in first && f.key == e.key {
      assert f in fired;
    }
  }

  /** The first call steps the open, the second finds the store failing at minute 1, the third steps on. */
  function FailureDay(s: int, at: nat): seq<Op> { [Follow(s, 0, 1), Fail(s, Storing(at)), Follow(s, LAST_MINUTE, 400)] }

  /** What is entered when the store raises at the `at`-th due event of minute 1. */
  function FirstEntered(market: Market, s: int, at: nat): seq<Event> {
    var events := Fire(map[], Order(market(s, 1))).events;
    events[..EnteredBefore(at, |events|)]
  }

  lemma FailureDayVisits(market: Market, s: int, at: nat) returns (rest: seq<Visit>)
    requires FirstEntered(market, s, at) != []
    ensures Track(market, FailureDay(s, at)).visits == [Visit(s, 1, map[], KeysOf(FirstEntered(market, s, at)))] + rest
    ensures forall i :: 0 <= i < |rest| ==> rest[i].minute >= 2
  {
    var ops := FailureDay(s, at);
    var none: seq<Op> := [];
    assert ops[..2][..1] == ops[..1] && ops[..1][..0] == none && ops[..|ops| - 1] == ops[..2];
    var x1 := Extend(market, Track(market, none), Follow(s, 0, 1));
    var x2 := Extend(market, x1, Fail(s, Storing(at)));
    assert Track(market, ops[..1]) == x1 && Track(market, ops[..2]) == x2;
    assert Track(market, ops) == Extend(market, x2, Follow(s, LAST_MINUTE, 400));
    FirstCall(market, s);
    FailedCall(market, x1, s, at);
    hide Track, FirstEntered;
    rest := LastCall(market, x2, s);
  }

  lemma LastCall(market: Market, x: History, s: int) returns (rest: seq<Visit>)
    requires x.world.runner == Runner(Some(s), Some(0)) && x.entered != {} && x.visits == []
    ensures Extend(market, x, Follow(s, LAST_MINUTE, 400)).visits == [Visit(s, 1, x.start, x.entered)] + rest
    ensures forall i :: 0 <= i < |rest| ==> rest[i].minute >= 2
  {
    var next := Attempt(market, x, s, 1, None);
    rest := LaterVisits(market, next, s, 2, LAST_MINUTE + 1);
    assert Extend(market, x, Follow(s, LAST_MINUTE, 400)) == Attempts(market, x, s, 1, LAST_MINUTE + 1);
    assert Attempts(market, x, s, 1, LAST_MINUTE + 1) == Attempts(market, next, s, 2, LAST_MINUTE + 1);
  }

  lemma FirstCall(market: Market, s: int)
    ensures var x := Extend(market, Track(market, []), Follow(s, 0, 1));
            x.world.rows == [] && x.world.engine == FreshEngine && x.world.runner == Runner(Some(s), Some(0)) &&
            x.entered == {} && x.visits == []
  {
    var x := Meet(Track(market, []), s);
    var y := Attempt(market, x, s, 0, None);
    assert Attempts(market, y, s, 1, 1) == y;
    assert Attempts(market, x, s, 0, 1) == y;
  }

  lemma FailedCall(market: Market, x: History, s: int, at: nat)
    requires x.world.rows == [] && x.world.engine == FreshEngine && x.world.runner == Runner(Some(s), Some(0))
    requires x.entered == {} && x.visits == [] && FirstEntered(market, s, at) != []
    ensures var x' := Extend(market, x, Fail(s, Storing(at)));
            x'.world.runner == x.world.runner && x'.start == map[] && x'.visits == [] &&
            x'.entered == KeysOf(FirstEntered(market, s, at)) && x'.entered != {}
  {
    assert LastFired([], s) == map[];
    assert MinuteOutcome(market, x.world, s, 1) == Fire(map[], Order(market(s, 1)));
    hide Fire, Order;
    assert FirstEntered(market, s, at)[0].key in KeysOf(FirstEntered(market, s, at));
  }

  lemma {:induction false} LaterVisits(market: Market, x: History, s: int, from: nat, to: nat)
    returns (rest: seq<Visit>)
    ensures Attempts(market, x, s, from, to).visits == x.visits + rest
    ensures forall i :: 0 <= i < |rest| ==> rest[i].minute >= from
    decreases MaxInt(to - from, 0)
  {
    if from >= to {
      rest := [];
    } else {
      var next := Attempt(market, x, s, from, None);
      var more := LaterVisits(market, next, s, from + 1, to);
      rest := next.visits[|x.visits|..] + more;
      assert x.visits + rest == next.visits + more;
    }
  }

  /**
   * One failure, retried in the same process: of the events of minute 1 the store ends with exactly
   * those that had not been entered when it raised, with none of them if it raised while adding.
   */
  lemma FailedMinuteIsLost(market: Market, h: Hash, s: int, at: nat, e: Event)
    requires Faithful(market, h) && NoCollision(market)
    requires e in Fire(map[], Order(market(s, 1))).events
    ensures e !in Run(market, FailureDay(s, at)).rows <==> e in FirstEntered(market, s, at)
  {
    hide Fire, Order, Track, Run, FiredAt, HeldBack, FirstEntered;
    FirstMinuteFires(market, h, s, e);
    EnteredByKey(market, h, s, at, e);
    FirstEnteredSome(market, s, at, e);
    var rest := FailureDayVisits(market, s, at);
    WhichEventsAreMissing(market, h, FailureDay(s, at), s, 1, e.key);
    var visits := Track(market, FailureDay(s, at)).visits;
    assert visits[0] == Visit(s, 1, map[], KeysOf(FirstEntered(market, s, at)));
    assert !HeldBack(market, s, map[], 1, e.key) by { NothingHeldBack(market, s, 1, e.key); }
    forall i | 1 <= i < |visits| ensures visits[i].minute != 1 { assert visits[i] == rest[i - 1]; }
  }

  lemma NothingHeldBack(market: Market, s: int, m: nat, key: Key)
    ensures !HeldBack(market, s, map[], m, key)
  {
  }

  lemma FirstEnteredSome(market: Market, s: int, at: nat, e: Event)
    requires e in Fire(map[], Order(market(s, 1))).events
    ensures FirstEntered(market, s, at) != []
  {
  }

  lemma FirstMinuteFires(market: Market, h: Hash, s: int, e: Event)
    requires Faithful(market, h) && e in Fire(map[], Order(market(s, 1))).events
    ensures FiredAt(market, s, 1, e.key) && LeaderAt(market, s, 1, e.key) == Some(e)
  {
    assert Candidates(market, s, 1) == market(s, 1) && Order(Candidates(market, s, 0)) == [];
    assert Reference(market, s, 1).table == map[];
    OrderedFrame(market, h, s, 1);
    FireOneKey(map[], Order(market(s, 1)), e.key, BarEpoch(s, 1));
  }

  lemma EnteredByKey(market: Market, h: Hash, s: int, at: nat, e: Event)
    requires Faithful(market, h) && e in Fire(map[], Order(market(s, 1))).events
    ensures e.key in KeysOf(FirstEntered(market, s, at)) <==> e in FirstEntered(market, s, at)
  {
    var events, first := Fire(map[], Order(market(s, 1))).events, FirstEntered(market, s, at);
    assert Candidates(market, s, 1) == market(s, 1);
    OrderedFrame(market, h, s, 1);
    FireDistinctKeys(map[], Order(market(s, 1)), BarEpoch(s, 1));
    hide Fire, Order;
    forall f | f in first ensures f in events {}
  }

  // ---- After a restart ----

  /** The latest stored firing of the key is no earlier than minute `m`, and nothing fired up to `m` outranks it. */
  ghost predicate HeldByStore(market: Market, rows: seq<Event>, s: int, m: nat, key: Key) {
    exists f :: IsLatest(rows, s, key, f) && Holds(market, s, m, key, f)
  }

  ghost predicate Holds(market: Market, s: int, m: nat, key: Key, f: Event) {
    f.barEpoch >= BarEpoch(s, m) && !Outranked(market, s, m + 1, key, f.severity.Rank())
  }

  /** Two stored events of one key and bar are one. */
  ghost predicate OnePerBar(rows: seq<Event>) {
    forall e, f :: e in rows && f in rows && e.session == f.session && e.key == f.key && e.barEpoch == f.barEpoch ==>
                   e == f
  }

  lemma HeldByLatest(market: Market, rows: seq<Event>, s: int, m: nat, key: Key)
    requires OnePerBar(rows)
    ensures HeldBack(market, s, LastFired(rows, s), m, key) <==> HeldByStore(market, rows, s, m, key)
  {
    var e := LastFiredIsLatest(rows, s, key);
    if HeldByStore(market, rows, s, m, key) {
      var f :| IsLatest(rows, s, key, f) && Holds(market, s, m, key, f);
      assert e.Some? && e.value == f;
    }
    if HeldBack(market, s, LastFired(rows, s), m, key) {
      assert Holds(market, s, m, key, e.value);
    }
  }

  lemma StoredOnePerBar(market: Market, h: Hash, x: History)
    requires Faithful(market, h) && Stored(market, x)
    ensures OnePerBar(x.world.rows)
  {
    var rows := x.world.rows;
    forall e, f | e in rows && f in rows && e.session == f.session && e.key == f.key && e.barEpoch == f.barEpoch
      ensures e == f
    {
      var v := StoredOrigin(market, h, x, e);
      var u := StoredOrigin(market, h, x, f);
      SameBarSameEvent(market, h, e, v, f, u);
    }
  }

  lemma SameBarSameEvent(market: Market, h: Hash, e: Event, v: Visit, f: Event, u: Visit)
    requires Stamped(h, v.session, v.minute, e) && Stamped(h, u.session, u.minute, f)
    requires BroughtBy(market, v, e) && BroughtBy(market, u, f)
    requires e.session == f.session && e.key == f.key && e.barEpoch == f.barEpoch
    ensures e == f
  {
  }

  /** The visits of one pass that nothing disturbs. */
  function PassOf(s: int, start: Table, from: nat, to: nat): seq<Visit>
    decreases MaxInt(to - from, 0)
  {
    if from >= to then []
    else (if from == 0 then [] else [Visit(s, from, start, {})]) + PassOf(s, start, from + 1, to)
  }

  lemma OneUndisturbed(market: Market, x: History, s: int, start: Table, m: nat)
    requires x.entered == {} && x.world.runner.session == Some(s) && x.world.runner.Next() == m
    requires if m <= 1 then StartSession(x.world.rows, x.world.engine, s).table == start else x.start == start
    ensures var x' := Attempt(market, x, s, m, None);
            x'.entered == {} && x'.world.runner.session == Some(s) && x'.world.runner.Next() == m + 1 &&
            (if m == 0 then StartSession(x'.world.rows, x'.world.engine, s).table == start else x'.start == start) &&
            x'.visits == x.visits + if m == 0 then [] else [Visit(s, m, start, {})]
  {
    hide Fire, Order, New, LastFired, Asks;
  }

  lemma {:induction false} UndisturbedPass(market: Market, x: History, s: int, start: Table, from: nat, to: nat)
    requires x.entered == {} && x.world.runner.session == Some(s) && x.world.runner.Next() == from
    requires if from <= 1 then StartSession(x.world.rows, x.world.engine, s).table == start else x.start == start
    ensures Attempts(market, x, s, from, to).visits == x.visits + PassOf(s, start, from, to)
    decreases MaxInt(to - from, 0)
  {
    hide Fire, Order, New, LastFired, Asks;
    if from < to {
      OneUndisturbed(market, x, s, start, from);
      hide Attempt, StartSession;
      UndisturbedPass(market, Attempt(market, x, s, from, None), s, start, from + 1, to);
    }
  }

  lemma {:induction false} PassBrings(market: Market, s: int, start: Table, from: nat, to: nat, e: Event)
    ensures Brought(market, PassOf(s, start, from, to), e) <==>
            exists m: nat :: from <= m < to && m > 0 && Brings(market, s, start, m, e)
    decreases MaxInt(to - from, 0)
  {
    if from < to {
      var rest := PassOf(s, start, from + 1, to);
      PassBrings(market, s, start, from + 1, to, e);
      if from == 0 {
        assert PassOf(s, start, from, to) == rest;
      } else {
        var v := Visit(s, from, start, {});
        assert PassOf(s, start, from, to) == [v] + rest;
        BroughtConcat(market, [v], rest, e);
        assert Brought(market, [v], e) <==> BroughtBy(market, v, e) by {
          if BroughtBy(market, v, e) { assert BroughtBy(market, [v][0], e); }
        }
      }
    }
  }

  lemma BroughtConcat(market: Market, a: seq<Visit>, b: seq<Visit>, e: Event)
    ensures Brought(market, a + b, e) <==> Brought(market, a, e) || Brought(market, b, e)
  {
    var all := a + b;
    if Brought(market, a, e) {
      var i :| 0 <= i < |a| && BroughtBy(market, a[i], e);
      assert all[i] == a[i];
    }
    if Brought(market, b, e) {
      var i :| 0 <= i < |b| && BroughtBy(market, b[i], e);
      assert all[|a| + i] == b[i];
    }
  }

  /** A restart and a step through the session's first `n` minutes, with the store working. */
  function Again(ops: seq<Op>, s: int, n: nat): seq<Op> { ops + [Restart] + [Follow(s, n - 1, n)] }

  lemma VisitsOfAgain(market: Market, ops: seq<Op>, s: int, n: nat)
    requires n <= LAST_MINUTE + 1
    ensures Track(market, Again(ops, s, n)).visits ==
            Track(market, ops).visits + PassOf(s, LastFired(Run(market, ops).rows, s), 0, n)
  {
    var again := Again(ops, s, n);
    var x := Track(market, ops);
    TrackIsRun(market, ops);
    assert again[..|again| - 1] == ops + [Restart] && (ops + [Restart])[..|ops|] == ops;
    var x1 := Extend(market, x, Restart);
    assert Track(market, ops + [Restart]) == x1;
    assert Track(market, again) == Extend(market, x1, Follow(s, n - 1, n));
    UndisturbedPass(market, Meet(x1, s), s, LastFired(x.world.rows, s), 0, n);
  }

  /**
   * What a restart brings back. After any history, stepping the session again through minute `m` stores
   * that minute's event exactly if it was stored already or no firing in the store holds it back: the
   * latest stored one of its key, unless that is earlier or something fired up to `m` outranks it.
   */
  lemma RestartRestores(market: Market, h: Hash, ops: seq<Op>, s: int, n: nat, m: nat, key: Key)
    requires Faithful(market, h) && NoCollision(market)
    requires FiredAt(market, s, m, key) && m < n <= LAST_MINUTE + 1
    ensures var e, rows := LeaderAt(market, s, m, key).value, Run(market, ops).rows;
            e in Run(market, Again(ops, s, n)).rows <==> e in rows || !HeldByStore(market, rows, s, m, key)
  {
    var e, rows := LeaderAt(market, s, m, key).value, Run(market, ops).rows;
    var start := LastFired(rows, s);
    RunKeeps(market, h, ops);
    TrackIsRun(market, ops);
    StoredOnePerBar(market, h, Track(market, ops));
    HeldByLatest(market, rows, s, m, key);
    WhichEventsAreStored(market, h, ops, e);
    WhichEventsAreStored(market, h, Again(ops, s, n), e);
    VisitsOfAgain(market, ops, s, n);
    BroughtConcat(market, Track(market, ops).visits, PassOf(s, start, 0, n), e);
    PassBrings(market, s, start, 0, n, e);
    forall i: nat | i < n ensures Brings(market, s, start, i, e) <==> i == m && !HeldBack(market, s, start, m, key) {
      OwnMinute(market, h, s, m, key, s, start, i);
    }
    assert LeaderAt(market, s, 0, key) == None && m > 0;
    hide Brings, HeldBack, HeldByStore, Track, Run, PassOf, Again, FiredAt;
    assert Brought(market, PassOf(s, start, 0, n), e) <==> Brings(market, s, start, m, e);
    assert Track(market, Again(ops, s, n)).visits == Track(market, ops).visits + PassOf(s, start, 0, n);
  }

  /** So a lost event without a later stored firing of its key always comes back. */
  lemma LostEventsComeBack(market: Market, h: Hash, ops: seq<Op>, s: int, n: nat, m: nat, key: Key)
    requires Faithful(market, h) && NoCollision(market)
    requires FiredAt(market, s, m, key) && m < n <= LAST_MINUTE + 1
    requires forall f :: f in Run(market, ops).rows && f.session == s && f.key == key ==> f.barEpoch < BarEpoch(s, m)
    ensures LeaderAt(market, s, m, key).value in Run(market, Again(ops, s, n)).rows
  {
    RestartRestores(market, h, ops, s, n, m, key);
  }
}
