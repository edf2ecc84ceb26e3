/** Whole runs, restarts included. */
module EventRuns {
  import opened Basics
  import opened EventRules
  import opened EventRestart
  import opened SessionClock

  /** The event engine's own state: the session it holds and that session's cooldown table. */
  datatype Engine = Engine(session: Option<int>, table: Table)

  /** The runner's own state: the session it follows and the last minute it has stepped. */
  datatype Runner = Runner(session: Option<int>, lastMinute: Option<nat>) {
    function Next(): nat { if lastMinute.None? then 0 else lastMinute.value + 1 }
  }

  const FreshEngine := Engine(None, map[])
  const FreshRunner := Runner(None, None)

  /**
   * `rows` is the stored table, `emitted` everything the runner has reported as new, and
   * `reached` how many minutes of each session have ever been stepped.
   */
  datatype World =
    World(rows: seq<Event>, engine: Engine, runner: Runner, emitted: seq<Event>, reached: map<int, nat>) {
    function Reached(s: int): nat { if s in reached then reached[s] else 0 }
  }

  const Start := World([], FreshEngine, FreshRunner, [], map[])

  /** The table is read back from the store whenever the engine meets another session. */
  function StartSession(rows: seq<Event>, engine: Engine, s: int): Engine {
    if engine.session == Some(s) then engine else Engine(Some(s), LastFired(rows, s))
  }

  /** One minute: build the frame's events, store them, report those that were new. */
  function StepMinute(market: Market, w: World, s: int, m: nat): World {
    var reached := w.reached[s := if w.Reached(s) <= m then m + 1 else w.Reached(s)];
    var runner := Runner(Some(s), Some(m));
    if m == 0 then w.(runner := runner, reached := reached)
    else
      var out := MinuteOutcome(market, w, s, m);
      var new_ := New(w.rows, out.events);
      World(w.rows + new_, Engine(Some(s), out.table), runner, w.emitted + new_, reached)
  }

  /** How many of a minute's due events are entered before the store raises at the `at`-th, or while adding all. */
  function EnteredBefore(at: nat, n: nat): (k: nat)
    ensures k <= n && (n > 0 ==> k > 0)
  {
    if 1 <= at <= n then at else n
  }

  /**
   * Where the store raises: reading back the table of a session the engine meets, or asked for what came
   * before the `at`-th due event of a minute, or asked to add them all.
   */
  datatype Failure = Reading | Storing(at: nat)

  /** The events that a failing attempt enters in the table. */
  function EnteredEvents(market: Market, w: World, s: int, m: nat, failure: Failure): seq<Event> {
    match failure
    case Reading => []
    case Storing(at) =>
      var events := MinuteOutcome(market, w, s, m).events;
      events[..EnteredBefore(at, |events|)]
  }

  /**
   * Nothing is stored. If the table cannot be read back the engine has met the session all the same and
   * keeps the table it had; otherwise the table has moved on by the events entered so far.
   */
  function FailMinute(market: Market, w: World, s: int, m: nat, failure: Failure): World {
    var table := if failure.Reading? then w.engine.table else StartSession(w.rows, w.engine, s).table;
    w.(engine := Engine(Some(s), Tabulate(table, EnteredEvents(market, w, s, m, failure))))
  }

  /** What the engine fires for a minute after the open, whatever the store then makes of it. */
  function MinuteOutcome(market: Market, w: World, s: int, m: nat): Outcome {
    Fire(StartSession(w.rows, w.engine, s).table, Order(market(s, m)))
  }

  /** The store is only asked for the table of a new session, and for events only when something is due. */
  predicate Asks(market: Market, w: World, s: int, m: nat, failure: Failure) {
    m > 0 && if failure.Reading? then w.engine.session != Some(s) else MinuteOutcome(market, w, s, m).events != []
  }

  function StepMinutes(market: Market, w: World, s: int, from: nat, to: nat): World
    decreases MaxInt(to - from, 0)
  {
    if from >= to then w else StepMinutes(market, StepMinute(market, w, s, from), s, from + 1, to)
  }

  /** The runner meets a session: another one than before starts again at its open. */
  function Enter(w: World, s: int): World {
    if w.runner.session == Some(s) then w else w.(runner := Runner(Some(s), None))
  }

  /** The first minute not stepped by a call that may go up to `limit` but is stopped after `stopAfter` steps. */
  function End(next: nat, limit: int, stopAfter: nat): int {
    MinInt(MinInt(limit, LAST_MINUTE) + 1, next + stopAfter)
  }

  /** A call of the runner, an attempt at a session's next minute while the store does not work, or a new process. */
  datatype Op =
    | Follow(session: int, limit: int, stopAfter: nat)
    | Fail(session: int, failure: Failure)
    | Restart

  function Apply(market: Market, w: World, op: Op): World {
    match op
    case Restart => w.(engine := FreshEngine, runner := FreshRunner)
    case Fail(s, failure) =>
      var w' := Enter(w, s);
      var m := w'.runner.Next();
      if m > LAST_MINUTE then w'
      else if Asks(market, w', s, m, failure) then FailMinute(market, w', s, m, failure)
      else StepMinute(market, w', s, m)
    case Follow(s, limit, stopAfter) =>
      var w' := Enter(w, s);
      var end := End(w'.runner.Next(), limit, stopAfter);
      if end <= w'.runner.Next() then w' else StepMinutes(market, w', s, w'.runner.Next(), end)
  }

  function Run(market: Market, ops: seq<Op>): World {
    if ops == [] then Start else Apply(market, Run(market, ops[..|ops| - 1]), ops[|ops| - 1])
  }

  // ---- The history of a run ----

  /**
   * A minute after the open that a pass has got through: the table the pass began with, and the keys
   * that failed attempts at the minute had entered in the table before.
   */
  datatype Visit = Visit(session: int, minute: nat, start: Table, entered: set<Key>)

  /**
   * A world, the table its present pass began with, the keys entered by failed attempts at the next
   * minute, all visits, and the sessions that a failed attempt may have cost something.
   */
  datatype History = History(world: World, start: Table, entered: set<Key>, visits: seq<Visit>, troubled: set<int>)

  /** A pass begins at the first minute after the open, with the table then in force. */
  function StartOf(x: History, s: int, m: nat): Table {
    if m == 1 && x.entered == {} then StartSession(x.world.rows, x.world.engine, s).table else x.start
  }

  /** A table that was not read back does no harm as long as no later session has left an entry in it. */
  predicate Harmless(w: World, s: int, failure: Failure) { failure.Reading? && NothingAhead(s, w.engine.table) }

  /** One attempt at a minute, with a working store or with one that raises somewhere. */
  function Attempt(market: Market, x: History, s: int, m: nat, outage: Option<Failure>): History {
    var w := x.world;
    if outage.Some? && Asks(market, w, s, m, outage.value) then
      History(FailMinute(market, w, s, m, outage.value), StartOf(x, s, m),
              x.entered + KeysOf(EnteredEvents(market, w, s, m, outage.value)), x.visits,
              x.troubled + if Harmless(w, s, outage.value) then {} else {s})
    else
      History(StepMinute(market, w, s, m), StartOf(x, s, m), {},
              x.visits + (if m == 0 then [] else [Visit(s, m, StartOf(x, s, m), x.entered)]), x.troubled)
  }

  function Attempts(market: Market, x: History, s: int, from: nat, to: nat): History
    decreases MaxInt(to - from, 0)
  {
    if from >= to then x else Attempts(market, Attempt(market, x, s, from, None), s, from + 1, to)
  }

  function Meet(x: History, s: int): History {
    if x.world.runner.session == Some(s) then x else x.(world := Enter(x.world, s), entered := {})
  }

  function Extend(market: Market, x: History, op: Op): History {
    match op
    case Restart => x.(world := Apply(market, x.world, Restart), entered := {})
    case Fail(s, failure) =>
      var x' := Meet(x, s);
      var m := x'.world.runner.Next();
      if m > LAST_MINUTE then x' else Attempt(market, x', s, m, Some(failure))
    case Follow(s, limit, stopAfter) =>
      var x' := Meet(x, s);
      var next := x'.world.runner.Next();
      var end := End(next, limit, stopAfter);
      if end <= next then x' else Attempts(market, x', s, next, end)
  }

  function Track(market: Market, ops: seq<Op>): History {
    if ops == [] then History(Start, map[], {}, [], {})
    else Extend(market, Track(market, ops[..|ops| - 1]), ops[|ops| - 1])
  }

  lemma {:induction false} AttemptsAreSteps(market: Market, x: History, s: int, from: nat, to: nat)
    ensures Attempts(market, x, s, from, to).world == StepMinutes(market, x.world, s, from, to)
    decreases MaxInt(to - from, 0)
  {
    if from < to { AttemptsAreSteps(market, Attempt(market, x, s, from, None), s, from + 1, to); }
  }

  /** The history only watches the run. */
  lemma {:induction false} TrackIsRun(market: Market, ops: seq<Op>)
    ensures Track(market, ops).world == Run(market, ops)
  {
    if ops != [] {
      TrackIsRun(market, ops[..|ops| - 1]);
      match ops[|ops| - 1]
      case Restart =>
      case Fail(s, failure) =>
      case Follow(s, limit, stopAfter) =>
        var x := Meet(Track(market, ops[..|ops| - 1]), s);
        var next := x.world.runner.Next();
        var end := End(next, limit, stopAfter);
        if end > next { AttemptsAreSteps(market, x, s, next, end); }
    }
  }

  // ---- The invariant ----

  /** Where a session stands: the runner's next minute, or the open for every other session. */
  function Position(w: World, s: int): nat {
    if w.runner.session == Some(s) then w.runner.Next() else 0
  }

  ghost predicate Brought(market: Market, visits: seq<Visit>, e: Event) {
    exists i :: 0 <= i < |visits| && BroughtBy(market, visits[i], e)
  }

  ghost predicate BroughtBy(market: Market, v: Visit, e: Event) {
    Brings(market, v.session, v.start, v.minute, e) && e.key !in v.entered
  }

  /** The stored rows are exactly what some visit brought. */
  ghost predicate Stored(market: Market, x: History) {
    && UniqueIds(x.world.rows)
    && x.world.emitted == x.world.rows
    && (forall e :: e in x.world.rows <==> Brought(market, x.visits, e))
    && forall i :: 0 <= i < |x.visits| ==> Reaches(x.world, x.visits[i])
  }

  ghost predicate Reaches(w: World, v: Visit) {
    1 <= v.minute <= LAST_MINUTE && v.minute < w.Reached(v.session)
  }

  ghost predicate MidPass(x: History, s: int) {
    x.world.runner.session == Some(s) && (x.entered != {} || x.world.runner.Next() > 1)
  }

  /** The table in force is that of the pass at the runner's minute, failed attempts included. */
  ghost predicate TableFits(market: Market, x: History, s: int) {
    var p := x.world.runner.Next();
    && x.world.engine.session == Some(s)
    && Fits(market, s, x.start)
    && MidMinute(market, s, x.start, p, x.entered, x.world.engine.table)
    && AllFire(market, s, x.start, p, x.entered)
  }

  /** Some session's firing left the entry, at a minute it was stepped through if nothing ever failed there. */
  ghost predicate LeftBy(market: Market, x: History, t: int, j: nat, key: Key, entry: Fired) {
    FiredAs(market, t, j, key, entry) && j <= LAST_MINUTE && (t in x.troubled || j < x.world.Reached(t))
  }

  ghost predicate Told(market: Market, x: History, table: Table) {
    forall key :: key in table ==> exists t, j: nat :: LeftBy(market, x, t, j, key, table[key])
  }

  ghost predicate Standing(market: Market, x: History, s: int) {
    var w := x.world;
    && Position(w, s) <= w.Reached(s) <= LAST_MINUTE + 1
    && (MidPass(x, s) ==> TableFits(market, x, s))
    && (x.entered != {} && w.runner.session == Some(s) ==> 1 <= w.runner.Next() <= LAST_MINUTE && s in x.troubled)
  }

  /** A session that no failure has cost anything: its rows are the uninterrupted run's, in order. */
  ghost predicate Whole(market: Market, x: History, s: int) {
    var w := x.world;
    s !in x.troubled ==>
      (OfSession(w.rows, s) == Reference(market, s, w.Reached(s)).events &&
       (w.engine.session == Some(s) ==> NothingAhead(s, w.engine.table)) &&
       (MidPass(x, s) ==> Marks(market, s, w.Reached(s), x.start)))
  }

  ghost predicate Inv(market: Market, x: History) {
    Stored(market, x) && Told(market, x, x.world.engine.table) &&
    forall s :: Standing(market, x, s) && Whole(market, x, s)
  }

  /** Entries of earlier sessions are stale by the open, those of later ones lie ahead. */
  lemma ToldFits(market: Market, x: History, s: int, table: Table)
    requires Told(market, x, table)
    ensures Fits(market, s, table)
    ensures s !in x.troubled && NothingAhead(s, table) ==> Marks(market, s, x.world.Reached(s), table)
  {
    forall key | key in table && !Stale(s, table[key]) && !Ahead(s, table[key])
      ensures Mark(market, s, LAST_MINUTE + 1, key, table[key])
      ensures s !in x.troubled ==> Mark(market, s, x.world.Reached(s), key, table[key])
    {
      var t, j: nat :| LeftBy(market, x, t, j, key, table[key]);
      OtherSessionsApart(s, t, j, table[key]);
    }
  }

  lemma OtherSessionsApart(s: int, t: int, j: nat, entry: Fired)
    requires entry.epoch == BarEpoch(t, j) && j <= LAST_MINUTE
    ensures t < s ==> Stale(s, entry)
    ensures t > s ==> Ahead(s, entry)
    ensures t == s ==> !Stale(s, entry) && !Ahead(s, entry)
  {
  }

  /** What is told stays told as a history goes on. */
  lemma ToldOn(market: Market, x: History, x': History, table: Table)
    requires Told(market, x, table) && x.troubled <= x'.troubled
    requires forall t :: x.world.Reached(t) <= x'.world.Reached(t)
    ensures Told(market, x', table)
  {
    forall key | key in table ensures exists t, j: nat :: LeftBy(market, x', t, j, key, table[key]) {
      var t, j: nat :| LeftBy(market, x, t, j, key, table[key]);
      assert LeftBy(market, x', t, j, key, table[key]);
    }
  }

  // ---- What keeps it ----

  lemma StartKept(market: Market)
    ensures Inv(market, Track(market, []))
  {
    var x := Track(market, []);
    forall s ensures Standing(market, x, s) && Whole(market, x, s) {}
  }

  lemma RestartKeeps(market: Market, x: History)
    requires Inv(market, x)
    ensures Inv(market, Extend(market, x, Restart))
  {
    var x' := Extend(market, x, Restart);
    forall i | 0 <= i < |x.visits| ensures Reaches(x'.world, x.visits[i]) { assert Reaches(x.world, x.visits[i]); }
    forall s ensures Standing(market, x', s) && Whole(market, x', s) {
      assert Standing(market, x, s) && Whole(market, x, s);
    }
    assert x'.world.engine.table == map[];
  }

  lemma MeetKeeps(market: Market, x: History, s: int)
    requires Inv(market, x)
    ensures Inv(market, Meet(x, s))
  {
    var x' := Meet(x, s);
    forall i | 0 <= i < |x.visits| ensures Reaches(x'.world, x.visits[i]) { assert Reaches(x.world, x.visits[i]); }
    forall t ensures Standing(market, x', t) && Whole(market, x', t) {
      assert Standing(market, x, t) && Whole(market, x, t);
    }
    ToldOn(market, x, x', x.world.engine.table);
  }

  /** Stored events are offered, stamped, and of a minute their session has been stepped through. */
  lemma StoredOrigin(market: Market, h: Hash, x: History, e: Event) returns (v: Visit)
    requires Faithful(market, h) && Stored(market, x) && e in x.world.rows
    ensures v in x.visits && BroughtBy(market, v, e) && Reaches(x.world, v)
    ensures Stamped(h, v.session, v.minute, e) && Offered(market, e)
    ensures e in Reference(market, v.session, x.world.Reached(v.session)).events
  {
    var i :| 0 <= i < |x.visits| && BroughtBy(market, x.visits[i], e);
    v := x.visits[i];
    assert Reaches(x.world, v);
    BroughtIsReference(market, h, v.session, v.start, v.minute, x.world.Reached(v.session), e);
  }

  /** A table read back from the store holds firings of its session. */
  lemma RebuiltTold(market: Market, h: Hash, x: History, s: int)
    requires Faithful(market, h) && Stored(market, x)
    ensures Told(market, x, LastFired(x.world.rows, s)) && NothingAhead(s, LastFired(x.world.rows, s))
  {
    var rows := x.world.rows;
    var table := LastFired(rows, s);
    forall key | key in table
      ensures !Ahead(s, table[key]) && exists t, j: nat :: LeftBy(market, x, t, j, key, table[key])
    {
      var e := LastFiredIsLatest(rows, s, key);
      var v := StoredOrigin(market, h, x, e.value);
      assert LeftBy(market, x, s, v.minute, key, table[key]);
    }
  }

  /** The table in force when a minute is tried. */
  lemma ToldInForce(market: Market, h: Hash, x: History, s: int)
    requires Faithful(market, h) && Inv(market, x)
    ensures var table := StartSession(x.world.rows, x.world.engine, s).table;
            Told(market, x, table) && (s !in x.troubled ==> NothingAhead(s, table))
  {
    assert Whole(market, x, s);
    if x.world.engine.session != Some(s) { RebuiltTold(market, h, x, s); }
  }

  /** The table in force when a minute is tried fits its pass. */
  lemma InForce(market: Market, h: Hash, x: History, s: int, m: nat)
    requires Faithful(market, h) && Inv(market, x)
    requires x.world.runner.session == Some(s) && 1 <= m == x.world.runner.Next()
    ensures var table, start := StartSession(x.world.rows, x.world.engine, s).table, StartOf(x, s, m);
            MidMinute(market, s, start, m, x.entered, table) && AllFire(market, s, start, m, x.entered) &&
            Fits(market, s, start) && (s !in x.troubled ==> Marks(market, s, x.world.Reached(s), start))
  {
    assert Standing(market, x, s) && Whole(market, x, s);
    if m == 1 && x.entered == {} {
      var table := StartSession(x.world.rows, x.world.engine, s).table;
      ToldInForce(market, h, x, s);
      ToldFits(market, x, s, table);
      PassBegins(market, s, table);
    }
  }

  lemma DistinctIds(market: Market, h: Hash, s: int, m: nat, table: Table)
    requires Faithful(market, h) && NoCollision(market)
    ensures UniqueIds(Fire(table, Order(Candidates(market, s, m))).events)
  {
    var events := Fire(table, Order(Candidates(market, s, m))).events;
    OrderedFrame(market, h, s, m);
    FireDistinctKeys(table, Order(Candidates(market, s, m)), BarEpoch(s, m));
    MinuteEvents(market, h, s, m, table);
    forall i, j | 0 <= i < j < |events| ensures events[i].id != events[j].id {
      assert Stamped(h, s, m, events[i]) && Stamped(h, s, m, events[j]);
    }
  }

  /** Bars of different sessions or minutes never share an epoch, and a key has one leader a minute. */
  lemma SameLeader(market: Market, h: Hash, s: int, start: Table, m: nat, e: Event, v: Visit, f: Event)
    requires NoCollision(market) && e.id == f.id && m <= LAST_MINUTE && v.minute <= LAST_MINUTE
    requires Brings(market, s, start, m, e) && Stamped(h, s, m, e) && Offered(market, e)
    requires Brings(market, v.session, v.start, v.minute, f) && Stamped(h, v.session, v.minute, f) && Offered(market, f)
    ensures e == f
  {
    hide Offered, FiredAt, HeldBack, LeaderAt;
    assert e.key == f.key && e.barEpoch == f.barEpoch;
  }

  /** An id that is stored already is stored with the very same event. */
  lemma SameIdSameEvent(market: Market, h: Hash, x: History, s: int, start: Table, m: nat, e: Event)
    requires Faithful(market, h) && NoCollision(market) && Stored(market, x)
    requires Brings(market, s, start, m, e) && m <= LAST_MINUTE
    ensures HasId(x.world.rows, e.id) <==> e in x.world.rows
  {
    BroughtIsReference(market, h, s, start, m, m + 1, e);
    var rows := x.world.rows;
    if HasId(rows, e.id) {
      var i :| 0 <= i < |rows| && rows[i].id == e.id;
      var v := StoredOrigin(market, h, x, rows[i]);
      SameLeader(market, h, s, start, m, e, v, rows[i]);
    }
    hide Stored, Faithful, NoCollision, Brings;
    if e in rows {
      var i :| 0 <= i < |rows| && rows[i] == e;
      assert rows[i].id == e.id;
    }
  }

  lemma {:induction false} NewMembers(rows: seq<Event>, events: seq<Event>, e: Event)
    requires UniqueIds(events) && forall f :: f in events ==> (HasId(rows, f.id) <==> f in rows)
    ensures e in rows + New(rows, events) <==> e in rows || e in events
    decreases |events|
  {
    if events != [] {
      var first, rest := events[0], events[1..];
      assert events == [first] + rest;
      if HasId(rows, first.id) {
        NewMembers(rows, rest, e);
      } else {
        var rows' := rows + [first];
        forall f | f in rest ensures HasId(rows', f.id) <==> f in rows' {
          var k :| 0 <= k < |rest| && rest[k] == f;
          assert events[k + 1] == f && f in events;
          HasIdAppend(rows, first, f.id);
        }
        NewMembers(rows', rest, e);
        assert rows + New(rows, events) == rows' + New(rows', rest);
      }
    }
  }

  /** What a visit leaves of the store: the rows grow by what it brings. */
  lemma VisitStored(market: Market, h: Hash, x: History, s: int, m: nat)
    requires Faithful(market, h) && NoCollision(market) && Inv(market, x)
    requires x.world.runner.session == Some(s) && 1 <= m == x.world.runner.Next() <= LAST_MINUTE
    ensures Stored(market, Attempt(market, x, s, m, None))
  {
    var w, x' := x.world, Attempt(market, x, s, m, None);
    var table, start := StartSession(w.rows, w.engine, s).table, StartOf(x, s, m);
    var out := MinuteOutcome(market, w, s, m);
    var v := Visit(s, m, start, x.entered);
    InForce(market, h, x, s, m);
    Restep(market, h, s, start, m, x.entered, table);
    DistinctIds(market, h, s, m, table);
    forall e | e in out.events ensures HasId(w.rows, e.id) <==> e in w.rows {
      SameIdSameEvent(market, h, x, s, start, m, e);
    }
    AddKeepsUnique(w.rows, out.events);
    assert x'.visits == x.visits + [v];
    forall e ensures e in x'.world.rows <==> Brought(market, x'.visits, e) {
      NewMembers(w.rows, out.events, e);
      BroughtMore(market, x.visits, v, e);
    }
    forall i | 0 <= i < |x'.visits| ensures Reaches(x'.world, x'.visits[i]) {
      if i < |x.visits| { assert Reaches(w, x.visits[i]); }
    }
  }

  lemma BroughtMore(market: Market, visits: seq<Visit>, v: Visit, e: Event)
    ensures Brought(market, visits + [v], e) <==> Brought(market, visits, e) || BroughtBy(market, v, e)
  {
    var more := visits + [v];
    if Brought(market, visits, e) {
      var i :| 0 <= i < |visits| && BroughtBy(market, visits[i], e);
      assert BroughtBy(market, more[i], e);
    }
    if BroughtBy(market, v, e) { assert BroughtBy(market, more[|visits|], e); }
  }

  /** After a visit the table is on the pass beyond that minute. */
  lemma VisitTable(market: Market, h: Hash, x: History, s: int, m: nat)
    requires Faithful(market, h) && Inv(market, x)
    requires x.world.runner.session == Some(s) && 1 <= m == x.world.runner.Next() <= LAST_MINUTE
    ensures OnPass(market, s, StartOf(x, s, m), m + 1, MinuteOutcome(market, x.world, s, m).table)
  {
    InForce(market, h, x, s, m);
    Restep(market, h, s, StartOf(x, s, m), m, x.entered, StartSession(x.world.rows, x.world.engine, s).table);
  }

  /** An entry after a minute is the one before it, or that of a firing there. */
  lemma OutcomeOrigin(market: Market, h: Hash, x: History, s: int, m: nat, key: Key)
    requires Faithful(market, h) && Inv(market, x)
    requires x.world.runner.session == Some(s) && 1 <= m == x.world.runner.Next() <= LAST_MINUTE
    ensures var table := StartSession(x.world.rows, x.world.engine, s).table;
            var after := MinuteOutcome(market, x.world, s, m).table;
            key in after ==>
              (key in table && after[key] == table[key]) || FiredAs(market, s, m, key, after[key])
  {
    var table := StartSession(x.world.rows, x.world.engine, s).table;
    InForce(market, h, x, s, m);
    Restep(market, h, s, StartOf(x, s, m), m, x.entered, table);
    OrderedFrame(market, h, s, m);
    FireOneKey(table, Order(Candidates(market, s, m)), key, BarEpoch(s, m));
    LeaderIsMember(Order(Candidates(market, s, m)), key);
    assert Candidates(market, s, m) == market(s, m);
    hide Fire, Order, MidMinute, AllFire, Fits, Marks, Inv, Due, Leader;
  }

  lemma VisitTold(market: Market, h: Hash, x: History, s: int, m: nat)
    requires Faithful(market, h) && Inv(market, x)
    requires x.world.runner.session == Some(s) && 1 <= m == x.world.runner.Next() <= LAST_MINUTE
    ensures var x' := Attempt(market, x, s, m, None); Told(market, x', x'.world.engine.table)
    ensures s !in x.troubled ==> NothingAhead(s, MinuteOutcome(market, x.world, s, m).table)
  {
    var x', table := Attempt(market, x, s, m, None), StartSession(x.world.rows, x.world.engine, s).table;
    var after := MinuteOutcome(market, x.world, s, m).table;
    ToldInForce(market, h, x, s);
    ToldOn(market, x, x', table);
    forall key | key in after
      ensures exists t, j: nat :: LeftBy(market, x', t, j, key, after[key])
      ensures s !in x.troubled ==> !Ahead(s, after[key])
    {
      OutcomeOrigin(market, h, x, s, m, key);
      assert FiredAs(market, s, m, key, after[key]) ==> LeftBy(market, x', s, m, key, after[key]);
      hide MinuteOutcome, StartSession, Inv, LeftBy;
    }
  }

  lemma VisitStanding(market: Market, h: Hash, x: History, s: int, m: nat, t: int)
    requires Faithful(market, h) && Inv(market, x)
    requires x.world.runner.session == Some(s) && 1 <= m == x.world.runner.Next() <= LAST_MINUTE
    ensures Standing(market, Attempt(market, x, s, m, None), t)
  {
    hide Fire, Order, MidMinute, Marks, StartSession, New, StartOf, Stored, Whole, Faithful;
    assert Standing(market, x, s) && Standing(market, x, t);
    VisitTable(market, h, x, s, m);
    InForce(market, h, x, s, m);
    hide Inv;
  }

  lemma NotEntered(market: Market, x: History, s: int)
    requires Inv(market, x) && x.world.runner.session == Some(s) && s !in x.troubled
    ensures x.entered == {}
  {
    assert Standing(market, x, s);
  }

  /** A minute stepped before: all it brings is stored already. */
  lemma NothingNew(market: Market, h: Hash, x: History, s: int, m: nat)
    requires Faithful(market, h) && Inv(market, x) && s !in x.troubled
    requires x.world.runner.session == Some(s) && 1 <= m == x.world.runner.Next() < x.world.Reached(s)
    ensures New(x.world.rows, MinuteOutcome(market, x.world, s, m).events) == []
  {
    var w, n, start := x.world, x.world.Reached(s), StartOf(x, s, m);
    var events := MinuteOutcome(market, w, s, m).events;
    assert Standing(market, x, s) && Whole(market, x, s);
    InForce(market, h, x, s, m);
    NotEntered(market, x, s);
    Restep(market, h, s, start, m, {}, StartSession(w.rows, w.engine, s).table);
    forall e | e in events ensures HasId(w.rows, e.id) {
      BroughtIsReference(market, h, s, start, m, n, e);
      OfSessionMembers(w.rows, s, e);
      var i :| 0 <= i < |w.rows| && w.rows[i] == e;
      assert w.rows[i].id == e.id;
    }
    AddStored(w.rows, events);
  }

  /** The next minute of a session that never failed: everything the uninterrupted run adds there is new. */
  lemma AllNew(market: Market, h: Hash, x: History, s: int, m: nat)
    requires Faithful(market, h) && NoCollision(market) && Inv(market, x) && s !in x.troubled
    requires x.world.runner.session == Some(s) && 1 <= m == x.world.runner.Next() == x.world.Reached(s) <= LAST_MINUTE
    ensures var events := MinuteOutcome(market, x.world, s, m).events;
            New(x.world.rows, events) == events && (forall e :: e in events ==> e.session == s) &&
            Reference(market, s, m + 1).events == Reference(market, s, m).events + events
  {
    var w, start := x.world, StartOf(x, s, m);
    var table := StartSession(w.rows, w.engine, s).table;
    var events := MinuteOutcome(market, w, s, m).events;
    assert Whole(market, x, s);
    InForce(market, h, x, s, m);
    NotEntered(market, x, s);
    CaughtUp(market, s, start, m, table);
    OrderedFrame(market, h, s, m);
    StaleIsIgnored(s, table, Reference(market, s, m).table, Order(Candidates(market, s, m)));
    Restep(market, h, s, start, m, {}, table);
    DistinctIds(market, h, s, m, table);
    MinuteEvents(market, h, s, m, table);
    forall e | e in events ensures !HasId(w.rows, e.id) { FreshId(market, h, x, s, start, m, e); }
    AddFresh(w.rows, events);
  }

  lemma FreshId(market: Market, h: Hash, x: History, s: int, start: Table, m: nat, e: Event)
    requires Faithful(market, h) && NoCollision(market) && Stored(market, x)
    requires Brings(market, s, start, m, e) && m == x.world.Reached(s) <= LAST_MINUTE
    ensures !HasId(x.world.rows, e.id)
  {
    SameIdSameEvent(market, h, x, s, start, m, e);
    BroughtIsReference(market, h, s, start, m, m + 1, e);
    if e in x.world.rows {
      var v := StoredOrigin(market, h, x, e);
    }
  }

  lemma VisitWhole(market: Market, h: Hash, x: History, s: int, m: nat, t: int)
    requires Faithful(market, h) && NoCollision(market) && Inv(market, x)
    requires x.world.runner.session == Some(s) && 1 <= m == x.world.runner.Next() <= LAST_MINUTE
    ensures Whole(market, Attempt(market, x, s, m, None), t)
  {
    assert Standing(market, x, s) && Whole(market, x, t);
    hide Whole, Stored, Standing;
    if t != s {
      assert Stored(market, x);
      OtherVisitWhole(market, h, x, s, m, t);
    } else if s !in x.troubled {
      OwnVisitWhole(market, h, x, s, m);
    } else {
      TroubledIsWhole(market, Attempt(market, x, s, m, None), s);
    }
  }

  lemma TroubledIsWhole(market: Market, x: History, s: int)
    requires s in x.troubled
    ensures Whole(market, x, s)
  {
  }

  /** A visit to one session adds no row to another. */
  lemma OtherRows(market: Market, h: Hash, w: World, s: int, m: nat, t: int)
    requires Faithful(market, h) && m >= 1 && t != s && UniqueIds(w.rows)
    ensures var new_ := New(w.rows, MinuteOutcome(market, w, s, m).events);
            OfSession(w.rows + new_, t) == OfSession(w.rows, t)
  {
    var events := MinuteOutcome(market, w, s, m).events;
    MinuteEvents(market, h, s, m, StartSession(w.rows, w.engine, s).table);
    AddKeepsUnique(w.rows, events);
    forall e | e in New(w.rows, events) ensures e.session != t {
      assert Candidates(market, s, m) == market(s, m);
      assert e in events && Stamped(h, s, m, e);
    }
    hide New, MinuteOutcome, OfSession;
    OfSessionConcat(w.rows, New(w.rows, events), t);
    OfSessionNone(New(w.rows, events), t);
  }

  lemma OtherVisitWhole(market: Market, h: Hash, x: History, s: int, m: nat, t: int)
    requires Faithful(market, h) && Stored(market, x) && Whole(market, x, t) && t != s
    requires m >= 1 && x.world.runner.session == Some(s)
    ensures Whole(market, Attempt(market, x, s, m, None), t)
  {
    hide MinuteOutcome, New, OfSession, Reference, Marks, StartSession, StartOf, Brought;
    OtherRows(market, h, x.world, s, m, t);
  }

  /** The rows of a visited session that never failed, after the visit. */
  lemma OwnRows(market: Market, h: Hash, x: History, s: int, m: nat)
    requires Faithful(market, h) && NoCollision(market) && Inv(market, x) && s !in x.troubled
    requires x.world.runner.session == Some(s) && 1 <= m == x.world.runner.Next() <= LAST_MINUTE
    ensures var w := x.world;
            m <= w.Reached(s) &&
            OfSession(w.rows + New(w.rows, MinuteOutcome(market, w, s, m).events), s) ==
            Reference(market, s, if m < w.Reached(s) then w.Reached(s) else m + 1).events
  {
    var w := x.world;
    var events := MinuteOutcome(market, w, s, m).events;
    assert Standing(market, x, s) && Whole(market, x, s);
    hide MinuteOutcome, New, OfSession, Reference, Marks;
    OfSessionConcat(w.rows, New(w.rows, events), s);
    if m < w.Reached(s) {
      NothingNew(market, h, x, s, m);
      assert w.rows + [] == w.rows;
    } else {
      AllNew(market, h, x, s, m);
      OfSessionAll(events, s);
    }
  }

  lemma OwnMarks(market: Market, h: Hash, x: History, s: int, m: nat, n: nat)
    requires Faithful(market, h) && Inv(market, x) && s !in x.troubled
    requires x.world.runner.session == Some(s) && 1 <= m == x.world.runner.Next() <= LAST_MINUTE
    requires x.world.Reached(s) <= n
    ensures Marks(market, s, n, StartOf(x, s, m)) && NothingAhead(s, MinuteOutcome(market, x.world, s, m).table)
  {
    InForce(market, h, x, s, m);
    VisitTold(market, h, x, s, m);
    hide MinuteOutcome, Marks, StartOf, MidMinute, StartSession, NothingAhead;
    MarksGrow(market, s, x.world.Reached(s), n, StartOf(x, s, m));
  }

  lemma OwnVisitWhole(market: Market, h: Hash, x: History, s: int, m: nat)
    requires Faithful(market, h) && NoCollision(market) && Inv(market, x) && s !in x.troubled
    requires x.world.runner.session == Some(s) && 1 <= m == x.world.runner.Next() <= LAST_MINUTE
    ensures Whole(market, Attempt(market, x, s, m, None), s)
  {
    hide MinuteOutcome, New, OfSession, Reference, Marks, StartSession, Inv, StartOf, Faithful, NoCollision, Asks;
    var n := x.world.Reached(s);
    OwnRows(market, h, x, s, m);
    OwnMarks(market, h, x, s, m, if m < n then n else m + 1);
  }

  /** A failed attempt stores nothing and leaves the table in the middle of the minute, or the one of before. */
  lemma FailureKeeps(market: Market, h: Hash, x: History, s: int, m: nat, failure: Failure)
    requires Faithful(market, h) && Inv(market, x) && Asks(market, x.world, s, m, failure)
    requires x.world.runner.session == Some(s) && m == x.world.runner.Next() <= LAST_MINUTE
    ensures Inv(market, Attempt(market, x, s, m, Some(failure)))
  {
    var x' := Attempt(market, x, s, m, Some(failure));
    FailureStored(market, x, s, m, failure);
    FailureTold(market, h, x, s, m, failure);
    forall t ensures Standing(market, x', t) && Whole(market, x', t) {
      assert Standing(market, x, t) && Whole(market, x, t);
      FailureStanding(market, h, x, s, m, failure, t);
      FailureWhole(market, x, s, m, failure, t);
    }
  }

  lemma FailureStored(market: Market, x: History, s: int, m: nat, failure: Failure)
    requires Stored(market, x) && Asks(market, x.world, s, m, failure)
    ensures Stored(market, Attempt(market, x, s, m, Some(failure)))
  {
    var x' := Attempt(market, x, s, m, Some(failure));
    forall i | 0 <= i < |x.visits| ensures Reaches(x'.world, x.visits[i]) { assert Reaches(x.world, x.visits[i]); }
  }

  /** An entry after some of a minute's events is the one before the minute or the one after it. */
  lemma PartlyTabulated(market: Market, h: Hash, w: World, s: int, m: nat, k: nat, key: Key)
    requires Faithful(market, h) && m >= 1 && k <= |MinuteOutcome(market, w, s, m).events|
    ensures var table, out := StartSession(w.rows, w.engine, s).table, MinuteOutcome(market, w, s, m);
            var entry := Lookup(Tabulate(table, out.events[..k]), key);
            entry == Lookup(table, key) || entry == Lookup(out.table, key)
  {
    var table, candidates := StartSession(w.rows, w.engine, s).table, Order(Candidates(market, s, m));
    OrderedFrame(market, h, s, m);
    FireDistinctKeys(table, candidates, BarEpoch(s, m));
    FireTabulates(table, candidates);
    hide Order, Fire, Tabulate, StartSession;
    TabulatePrefix(table, MinuteOutcome(market, w, s, m).events, k, key);
  }

  lemma FailureTold(market: Market, h: Hash, x: History, s: int, m: nat, failure: Failure)
    requires Faithful(market, h) && Inv(market, x) && Asks(market, x.world, s, m, failure)
    requires x.world.runner.session == Some(s) && m == x.world.runner.Next() <= LAST_MINUTE
    ensures var x' := Attempt(market, x, s, m, Some(failure)); Told(market, x', x'.world.engine.table)
  {
    var w, x' := x.world, Attempt(market, x, s, m, Some(failure));
    match failure
    case Reading => ToldOn(market, x, x', w.engine.table);
    case Storing(at) =>
      var table, out := StartSession(w.rows, w.engine, s).table, MinuteOutcome(market, w, s, m);
      var k := EnteredBefore(at, |out.events|);
      ToldInForce(market, h, x, s);
      ToldOn(market, x, x', table);
      forall key | key in x'.world.engine.table
        ensures exists t, j: nat :: LeftBy(market, x', t, j, key, x'.world.engine.table[key])
      {
        PartlyTabulated(market, h, w, s, m, k, key);
        OutcomeOrigin(market, h, x, s, m, key);
        assert key in out.table && FiredAs(market, s, m, key, out.table[key]) ==>
            LeftBy(market, x', s, m, key, out.table[key]);
        hide MinuteOutcome, StartSession, Inv, LeftBy, Tabulate;
      }
  }

  /** The pass a failed attempt leaves, if it is in the middle of one. */
  lemma FailureTable(market: Market, h: Hash, x: History, s: int, m: nat, at: nat)
    requires Faithful(market, h) && Inv(market, x) && Asks(market, x.world, s, m, Storing(at))
    requires x.world.runner.session == Some(s) && m == x.world.runner.Next() <= LAST_MINUTE
    ensures var x', start := Attempt(market, x, s, m, Some(Storing(at))), StartOf(x, s, m);
            Fits(market, s, start) && MidMinute(market, s, start, m, x'.entered, x'.world.engine.table) &&
            AllFire(market, s, start, m, x'.entered)
  {
    var start, table := StartOf(x, s, m), StartSession(x.world.rows, x.world.engine, s).table;
    var events := MinuteOutcome(market, x.world, s, m).events;
    InForce(market, h, x, s, m);
    PartlyEntered(market, h, s, start, m, x.entered, table, EnteredBefore(at, |events|));
  }

  /** The table is only read back when no pass is under way. */
  lemma ReadsBetweenPasses(market: Market, x: History, s: int, m: nat)
    requires Standing(market, x, s) && Asks(market, x.world, s, m, Reading)
    ensures !MidPass(x, s)
  {
  }

  lemma FailureStanding(market: Market, h: Hash, x: History, s: int, m: nat, failure: Failure, t: int)
    requires Faithful(market, h) && Inv(market, x) && Standing(market, x, t) && Asks(market, x.world, s, m, failure)
    requires x.world.runner.session == Some(s) && m == x.world.runner.Next() <= LAST_MINUTE
    ensures Standing(market, Attempt(market, x, s, m, Some(failure)), t)
  {
    assert Standing(market, x, s);
    match failure
    case Reading =>
      ReadsBetweenPasses(market, x, s, m);
      hide TableFits, NothingAhead, StartOf;
    case Storing(at) =>
      FailureTable(market, h, x, s, m, at);
      hide Fire, Order, MidMinute, AllFire, Fits, StartSession, EnteredEvents, StartOf, Inv, Faithful;
  }

  lemma FailureWhole(market: Market, x: History, s: int, m: nat, failure: Failure, t: int)
    requires Whole(market, x, t) && Standing(market, x, s) && x.world.runner.session == Some(s)
    requires Asks(market, x.world, s, m, failure)
    ensures Whole(market, Attempt(market, x, s, m, Some(failure)), t)
  {
    if failure.Reading? { ReadsBetweenPasses(market, x, s, m); }
    hide OfSession, Reference, Marks, StartSession, StartOf, NothingAhead, Standing;
  }

  /** The open changes nothing but where the runner stands. */
  lemma OpenKeeps(market: Market, x: History, s: int, outage: Option<Failure>)
    requires Inv(market, x) && x.world.runner.session == Some(s) && x.world.runner.Next() == 0
    ensures Inv(market, Attempt(market, x, s, 0, outage))
  {
    var x' := Attempt(market, x, s, 0, outage);
    assert Standing(market, x, s);
    assert x'.visits == x.visits;
    forall i | 0 <= i < |x.visits| ensures Reaches(x'.world, x.visits[i]) { assert Reaches(x.world, x.visits[i]); }
    forall t ensures Standing(market, x', t) && Whole(market, x', t) {
      assert Standing(market, x, t) && Whole(market, x, t);
      OpenStands(market, x, s, outage, t);
    }
    ToldOn(market, x, x', x.world.engine.table);
  }

  lemma OpenStands(market: Market, x: History, s: int, outage: Option<Failure>, t: int)
    requires Standing(market, x, s) && Standing(market, x, t) && Whole(market, x, t)
    requires x.world.runner.session == Some(s) && x.world.runner.Next() == 0
    ensures var x' := Attempt(market, x, s, 0, outage); Standing(market, x', t) && Whole(market, x', t)
  {
    var x' := Attempt(market, x, s, 0, outage);
    assert Order(Candidates(market, s, 0)) == [];
    assert Reference(market, s, 1) == Reference(market, s, 0);
    hide Order, Reference, Fire;
    hide Marks, NothingAhead;
  }

  lemma AttemptKeeps(market: Market, h: Hash, x: History, s: int, m: nat, outage: Option<Failure>)
    requires Faithful(market, h) && NoCollision(market) && Inv(market, x)
    requires x.world.runner.session == Some(s) && m == x.world.runner.Next() <= LAST_MINUTE
    ensures Inv(market, Attempt(market, x, s, m, outage))
  {
    if m == 0 {
      OpenKeeps(market, x, s, outage);
    } else if outage.Some? && Asks(market, x.world, s, m, outage.value) {
      FailureKeeps(market, h, x, s, m, outage.value);
    } else {
      var x' := Attempt(market, x, s, m, None);
      assert x' == Attempt(market, x, s, m, outage);
      VisitStored(market, h, x, s, m);
      VisitTold(market, h, x, s, m);
      forall t ensures Standing(market, x', t) && Whole(market, x', t) {
        VisitStanding(market, h, x, s, m, t);
        VisitWhole(market, h, x, s, m, t);
      }
    }
  }

  lemma {:induction false} AttemptsKeep(market: Market, h: Hash, x: History, s: int, from: nat, to: nat)
    requires Faithful(market, h) && NoCollision(market) && Inv(market, x)
    requires x.world.runner.session == Some(s) && x.world.runner.Next() == from && to <= LAST_MINUTE + 1
    ensures Inv(market, Attempts(market, x, s, from, to))
    decreases MaxInt(to - from, 0)
  {
    hide Inv;
    if from < to {
      AttemptKeeps(market, h, x, s, from, None);
      AttemptsKeep(market, h, Attempt(market, x, s, from, None), s, from + 1, to);
    }
  }

  lemma ExtendKeeps(market: Market, h: Hash, x: History, op: Op)
    requires Faithful(market, h) && NoCollision(market) && Inv(market, x)
    ensures Inv(market, Extend(market, x, op))
  {
    match op
    case Restart => RestartKeeps(market, x);
    case Fail(s, failure) =>
      MeetKeeps(market, x, s);
      var x' := Meet(x, s);
      var m := x'.world.runner.Next();
      if m <= LAST_MINUTE { AttemptKeeps(market, h, x', s, m, Some(failure)); }
    case Follow(s, limit, stopAfter) =>
      MeetKeeps(market, x, s);
      var x' := Meet(x, s);
      var next := x'.world.runner.Next();
      var end := End(next, limit, stopAfter);
      if end > next { AttemptsKeep(market, h, x', s, next, end); }
  }

  lemma {:induction false} RunKeeps(market: Market, h: Hash, ops: seq<Op>)
    requires Faithful(market, h) && NoCollision(market)
    ensures Inv(market, Track(market, ops))
  {
    if ops == [] {
      StartKept(market);
    } else {
      RunKeeps(market, h, ops[..|ops| - 1]);
      ExtendKeeps(market, h, Track(market, ops[..|ops| - 1]), ops[|ops| - 1]);
    }
  }

  // ---- Main results ----

  /**
   * Nothing failed that can cost the session anything: no attempt at it while the store takes no events, and
   * none whose table could not be read back while the engine held an entry of a later session.
   */
  predicate Undisturbed(market: Market, ops: seq<Op>, s: int) {
    forall i :: 0 <= i < |ops| && ops[i].Fail? && ops[i].session == s ==>
                ops[i].failure.Reading? && NothingAhead(s, Run(market, ops[..i]).engine.table)
  }

  lemma {:induction false} AttemptsSucceed(market: Market, x: History, s: int, from: nat, to: nat)
    ensures Attempts(market, x, s, from, to).troubled == x.troubled
    decreases MaxInt(to - from, 0)
  {
    if from < to { AttemptsSucceed(market, Attempt(market, x, s, from, None), s, from + 1, to); }
  }

  lemma {:induction false} NoTrouble(market: Market, ops: seq<Op>, s: int)
    requires Undisturbed(market, ops, s)
    ensures s !in Track(market, ops).troubled
  {
    if ops != [] {
      var before, op := ops[..|ops| - 1], ops[|ops| - 1];
      assert forall i :: 0 <= i < |before| ==> before[i] == ops[i] && before[..i] == ops[..i];
      NoTrouble(market, before, s);
      TrackIsRun(market, before);
      match op
      case Restart =>
      case Fail(t, failure) =>
        assert t == s ==> failure.Reading? && NothingAhead(s, Run(market, before).engine.table);
        hide NothingAhead, Run, Undisturbed;
      case Follow(t, limit, stopAfter) =>
        var x := Meet(Track(market, before), t);
        var next := x.world.runner.Next();
        var end := End(next, limit, stopAfter);
        if end > next { AttemptsSucceed(market, x, t, next, end); }
    }
  }

  /**
   * Restart confluence. Whatever the history of steps, stops, session switches and restarts, of failures in
   * other sessions and of harmless ones in this, each session's stored events are those of stepping it once,
   * in order, as far as the history ever reached; and each stored event was reported as new exactly once.
   */
  lemma RestartConfluence(market: Market, h: Hash, ops: seq<Op>, s: int)
    requires Faithful(market, h) && NoCollision(market) && Undisturbed(market, ops, s)
    ensures var w := Run(market, ops);
            OfSession(w.rows, s) == Reference(market, s, w.Reached(s)).events &&
            w.emitted == w.rows && UniqueIds(w.rows)
  {
    RunKeeps(market, h, ops);
    TrackIsRun(market, ops);
    NoTrouble(market, ops, s);
    assert Whole(market, Track(market, ops), s);
  }

  /** In particular it equals the history that steps the session in one call without a restart. */
  lemma SameAsOneUninterruptedRun(market: Market, h: Hash, ops: seq<Op>, s: int)
    requires Faithful(market, h) && NoCollision(market) && Undisturbed(market, ops, s)
    requires Run(market, ops).Reached(s) > 0
    ensures var n := Run(market, ops).Reached(s);
            OfSession(Run(market, ops).rows, s) == OfSession(Run(market, [Follow(s, n - 1, n)]).rows, s)
  {
    hide Fire, New, Reference, Run, OfSession;
    var n := Run(market, ops).Reached(s);
    ReachedInSession(market, h, ops, s);
    RestartConfluence(market, h, ops, s);
    RestartConfluence(market, h, [Follow(s, n - 1, n)], s);
    OneCall(market, s, n);
  }

  lemma ReachedInSession(market: Market, h: Hash, ops: seq<Op>, s: int)
    requires Faithful(market, h) && NoCollision(market)
    ensures Run(market, ops).Reached(s) <= LAST_MINUTE + 1
  {
    RunKeeps(market, h, ops);
    TrackIsRun(market, ops);
    assert Standing(market, Track(market, ops), s);
  }

  lemma OneCall(market: Market, s: int, n: nat)
    requires 0 < n <= LAST_MINUTE + 1
    ensures Run(market, [Follow(s, n - 1, n)]).Reached(s) == n
  {
    var once := [Follow(s, n - 1, n)];
    assert once[..|once| - 1] == [];
    hide StepMinute;
    var w := Enter(Start, s);
    assert Run(market, once) == StepMinutes(market, w, s, 0, n);
    StepsReach(market, w, s, 0, n);
  }

  lemma {:induction false} StepsReach(market: Market, w: World, s: int, from: nat, to: nat)
    requires from <= to && w.Reached(s) == from
    ensures StepMinutes(market, w, s, from, to).Reached(s) == to
    decreases MaxInt(to - from, 0)
  {
    if from < to { StepsReach(market, StepMinute(market, w, s, from), s, from + 1, to); }
  }
}
