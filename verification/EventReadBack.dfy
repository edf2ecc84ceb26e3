/** When a table cannot be read back. */
module EventReadBack {
  // The engine notes that it has met a session before it asks the store for the session's table. If that
  // raises, the retry goes on with whatever table the engine had: none, or that of another session.

  import opened Basics
  import opened EventRules
  import opened EventRestart
  import opened SessionClock
  import opened EventRuns
  import opened EventLosses

  // ---- Sessions followed in order ----

  predicate Names(op: Op, s: int) { !op.Restart? && op.session == s }

  /** No session is followed after a later one, in whatever process. */
  ghost predicate InOrder(ops: seq<Op>) {
    forall i, j, s, t :: 0 <= i < j < |ops| && Names(ops[i], s) && Names(ops[j], t) ==> s <= t
  }

  lemma {:induction false} AttemptsLeave(market: Market, x: History, s: int, from: nat, to: nat, t: int)
    requires t != s
    ensures Attempts(market, x, s, from, to).world.Reached(t) == x.world.Reached(t)
    decreases MaxInt(to - from, 0)
  {
    hide MinuteOutcome, New;
    if from < to { AttemptsLeave(market, Attempt(market, x, s, from, None), s, from + 1, to, t); }
  }

  /** A session that nothing names is neither stepped nor troubled. */
  lemma {:induction false} Untouched(market: Market, ops: seq<Op>, t: int)
    requires forall i :: 0 <= i < |ops| ==> !Names(ops[i], t)
    ensures Track(market, ops).world.Reached(t) == 0 && t !in Track(market, ops).troubled
  {
    if ops != [] {
      var before, op := ops[..|ops| - 1], ops[|ops| - 1];
      assert forall i :: 0 <= i < |before| ==> before[i] == ops[i];
      assert !Names(op, t);
      Untouched(market, before, t);
      UntouchedBy(market, Track(market, before), op, t);
    }
  }

  lemma UntouchedBy(market: Market, x: History, op: Op, t: int)
    requires !Names(op, t)
    ensures Extend(market, x, op).world.Reached(t) == x.world.Reached(t)
    ensures t in Extend(market, x, op).troubled ==> t in x.troubled
  {
    hide MinuteOutcome, New, EnteredEvents, NothingAhead;
    match op
    case Restart =>
    case Fail(s, failure) =>
    case Follow(s, limit, stopAfter) =>
      var x' := Meet(x, s);
      var next := x'.world.runner.Next();
      var end := End(next, limit, stopAfter);
      if end > next {
        AttemptsLeave(market, x', s, next, end, t);
        AttemptsSucceed(market, x', s, next, end);
      }
  }

  /** While sessions are followed in order, a table that cannot be read back never does any harm. */
  lemma InOrderIsHarmless(market: Market, h: Hash, ops: seq<Op>, s: int)
    requires Faithful(market, h) && NoCollision(market) && InOrder(ops)
    requires forall i :: 0 <= i < |ops| && ops[i].Fail? && ops[i].session == s ==> ops[i].failure.Reading?
    ensures Undisturbed(market, ops, s)
  {
    forall i | 0 <= i < |ops| && ops[i].Fail? && ops[i].session == s
      ensures NothingAhead(s, Run(market, ops[..i]).engine.table)
    {
      NothingLaterYet(market, h, ops, s, i);
    }
  }

  lemma NothingLaterYet(market: Market, h: Hash, ops: seq<Op>, s: int, i: nat)
    requires Faithful(market, h) && NoCollision(market) && InOrder(ops) && i < |ops| && Names(ops[i], s)
    ensures NothingAhead(s, Run(market, ops[..i]).engine.table)
  {
    var before := ops[..i];
    var x := Track(market, before);
    var table := x.world.engine.table;
    RunKeeps(market, h, before);
    TrackIsRun(market, before);
    forall key | key in table ensures !Ahead(s, table[key]) {
      var t, j: nat :| LeftBy(market, x, t, j, key, table[key]);
      OtherSessionsApart(s, t, j, table[key]);
      if t > s {
        forall k | 0 <= k < |before| ensures !Names(before[k], t) { assert before[k] == ops[k]; }
        Untouched(market, before, t);
      }
    }
  }

  // ---- A session followed after a later one ----

  /** A minute of session `t`, the open of session `s`, a table that cannot be read back, then the rest of `s`. */
  function ReadBackDay(t: int, s: int): seq<Op> {
    [Follow(t, 1, 2), Follow(s, 0, 1), Fail(s, Reading), Follow(s, LAST_MINUTE, 400)]
  }

  /** The table that the minute of session `t` leaves. */
  function LeftOver(market: Market, t: int): Table { Fire(map[], Order(market(t, 1))).table }

  lemma OtherSession(market: Market, t: int)
    ensures var x := Extend(market, Track(market, []), Follow(t, 1, 2));
            x.world.engine == Engine(Some(t), LeftOver(market, t)) && x.world.runner == Runner(Some(t), Some(1)) &&
            x.entered == {} && x.visits == [Visit(t, 1, map[], {})]
  {
    hide Fire, Order, New;
    var x := Meet(Track(market, []), t);
    var y := Attempt(market, x, t, 0, None);
    var z := Attempt(market, y, t, 1, None);
    assert LastFired([], t) == map[];
    assert Attempts(market, z, t, 2, 2) == z && Attempts(market, y, t, 1, 2) == z && Attempts(market, x, t, 0, 2) == z;
  }

  lemma ReadFailed(market: Market, x: History, t: int, s: int)
    requires t != s && x.world.engine == Engine(Some(t), LeftOver(market, t)) && x.entered == {}
    requires x.world.runner == Runner(Some(t), Some(1))
    ensures var y := Extend(market, Extend(market, x, Follow(s, 0, 1)), Fail(s, Reading));
            y.world.engine == Engine(Some(s), LeftOver(market, t)) && y.world.runner == Runner(Some(s), Some(0)) &&
            y.entered == {} && y.visits == x.visits
  {
    hide LeftOver, NothingAhead;
    var met := Meet(x, s);
    var first := Attempt(market, met, s, 0, None);
    assert Attempts(market, first, s, 1, 1) == first && Attempts(market, met, s, 0, 1) == first;
    assert Asks(market, first.world, s, 1, Reading);
  }

  /** The history before the day's last call. */
  function BeforeLast(market: Market, t: int, s: int): History {
    var x := Extend(market, Track(market, []), Follow(t, 1, 2));
    Extend(market, Extend(market, x, Follow(s, 0, 1)), Fail(s, Reading))
  }

  lemma DayUnfolds(market: Market, t: int, s: int)
    ensures Track(market, ReadBackDay(t, s)) == Extend(market, BeforeLast(market, t, s), Follow(s, LAST_MINUTE, 400))
  {
    hide Extend;
    var ops := ReadBackDay(t, s);
    var none: seq<Op> := [];
    assert ops[..3][..2] == ops[..2] && ops[..2][..1] == ops[..1] && ops[..1][..0] == none;
    assert ops[..|ops| - 1] == ops[..3];
    var x := Extend(market, Track(market, none), Follow(t, 1, 2));
    assert Track(market, ops[..1]) == x;
    assert Track(market, ops[..2]) == Extend(market, x, Follow(s, 0, 1));
    assert Track(market, ops[..3]) == BeforeLast(market, t, s);
  }

  lemma VisitsOfDay(market: Market, t: int, s: int) returns (rest: seq<Visit>)
    requires t != s
    ensures Track(market, ReadBackDay(t, s)).visits ==
            [Visit(t, 1, map[], {}), Visit(s, 1, LeftOver(market, t), {})] + rest
    ensures forall i :: 0 <= i < |rest| ==> rest[i].minute >= 2
  {
    DayUnfolds(market, t, s);
    OtherSession(market, t);
    ReadFailed(market, Extend(market, Track(market, []), Follow(t, 1, 2)), t, s);
    hide Track, LeftOver, Extend;
    rest := RestOfDay(market, BeforeLast(market, t, s), s, LeftOver(market, t));
  }

  lemma RestOfDay(market: Market, x: History, s: int, table: Table) returns (rest: seq<Visit>)
    requires x.world.runner == Runner(Some(s), Some(0)) && x.entered == {} && x.world.engine == Engine(Some(s), table)
    ensures Extend(market, x, Follow(s, LAST_MINUTE, 400)).visits == x.visits + [Visit(s, 1, table, {})] + rest
    ensures forall i :: 0 <= i < |rest| ==> rest[i].minute >= 2
  {
    var next := Attempt(market, x, s, 1, None);
    rest := LaterVisits(market, next, s, 2, LAST_MINUTE + 1);
    hide StepMinute;
    assert Extend(market, x, Follow(s, LAST_MINUTE, 400)) == Attempts(market, x, s, 1, LAST_MINUTE + 1);
    assert Attempts(market, x, s, 1, LAST_MINUTE + 1) == Attempts(market, next, s, 2, LAST_MINUTE + 1);
    assert next.visits == x.visits + [Visit(s, 1, table, {})];
  }

  /** What the other session's minute left holds back an event of minute 1 only if that session is later. */
  lemma LeftOverHolds(market: Market, h: Hash, t: int, s: int, e: Event)
    requires Faithful(market, h) && t != s && e in Fire(map[], Order(market(s, 1))).events
    ensures var table := LeftOver(market, t);
            HeldBack(market, s, table, 1, e.key) <==>
            t > s && e.key in table && e.severity.Rank() <= table[e.key].rank
  {
    var table, key := LeftOver(market, t), e.key;
    FirstMinuteFires(market, h, s, e);
    OrderedFrame(market, h, t, 1);
    assert Candidates(market, t, 1) == market(t, 1);
    FireOneKey(map[], Order(market(t, 1)), key, BarEpoch(t, 1));
    hide Fire, Order;
    if key in table {
      OutrankedNext(market, s, 0, key, table[key].rank);
      OutrankedNext(market, s, 1, key, table[key].rank);
      assert LeaderAt(market, s, 0, key) == None;
    }
  }

  /**
   * The harm of a table that was not read back: an event of minute 1 goes missing exactly if the session
   * before it in the process was a later one whose firing of the same key was no less severe.
   */
  lemma LaterTableHoldsBack(market: Market, h: Hash, t: int, s: int, e: Event)
    requires Faithful(market, h) && NoCollision(market) && t != s
    requires e in Fire(map[], Order(market(s, 1))).events
    ensures var table := LeftOver(market, t);
            e !in Run(market, ReadBackDay(t, s)).rows <==>
            t > s && e.key in table && e.severity.Rank() <= table[e.key].rank
  {
    hide Fire, Order, Track, Run, FiredAt, HeldBack, LeftOver;
    FirstMinuteFires(market, h, s, e);
    LeftOverHolds(market, h, t, s, e);
    var rest := VisitsOfDay(market, t, s);
    WhichEventsAreMissing(market, h, ReadBackDay(t, s), s, 1, e.key);
    var visits := Track(market, ReadBackDay(t, s)).visits;
    assert visits[0].session == t && visits[1] == Visit(s, 1, LeftOver(market, t), {});
    forall i | 2 <= i < |visits| ensures visits[i].minute != 1 { assert visits[i] == rest[i - 2]; }
  }
}
