/** The store, the engine and the live runner. */
module EventService {
  import opened Basics
  import opened EventRules
  import opened EventRestart
  import opened SessionClock
  import opened EventRuns

  class EventStore {
    var rows: seq<Event>

    constructor ()
      ensures rows == []
    {
      rows := [];
    }

    /** Store events in one transaction; returns those that were new. Without a working database it raises. */
    method Add(events: seq<Event>, up: bool) returns (ok: bool, added: seq<Event>)
      modifies this
      ensures ok == up
      ensures ok ==> added == New(old(rows), events) && rows == old(rows) + added
      ensures !ok ==> added == [] && rows == old(rows)
    {
      ok, added := up, [];
      if !up { return; }
      for i := 0 to |events|
        invariant rows == old(rows) + added
        invariant New(old(rows), events) == added + New(rows, events[i..])
      {
        var e := events[i];
        NewOne(rows, events, i, added);
        hide New, HasId;
        if !HasId(rows, e.id) {
          rows := rows + [e];
          added := added + [e];
        }
      }
    }

    /** The cooldown table of a session, later rows replacing earlier ones. Without a working database it raises. */
    method ReadLastFired(session: int, up: bool) returns (ok: bool, table: Table)
      ensures ok == up && (ok ==> table == LastFired(rows, session))
    {
      ok, table := up, map[];
      if !up { return; }
      var ordered := ByEpoch(OfSession(rows, session));
      for i := 0 to |ordered|
        invariant Tabulate(map[], ordered) == Tabulate(table, ordered[i..])
      {
        var e := ordered[i];
        assert ordered[i..][1..] == ordered[i + 1..];
        table := table[e.key := Fired(e.barEpoch, e.severity.Rank())];
      }
    }
  }

  class EventEngine {
    const store: EventStore
    var session: Option<int>
    var last: Table

    constructor (store: EventStore)
      ensures this.store == store && State() == FreshEngine
    {
      this.store := store;
      session := None;
      last := map[];
    }

    ghost function State(): Engine
      reads this
    {
      Engine(session, last)
    }

    /**
     * Events for one frame, after cooldown: stored, and only the new ones returned. A new session is noted
     * before its table is read back, and each due event is entered in the table before the store is asked
     * how often it came before. If the store raises, reading back, at some due event or while adding them
     * all, so does this.
     */
    method Build(frameSession: int, gridIsEmpty: bool, candidates: seq<Event>, outage: Option<Failure>)
        returns (ok: bool, events: seq<Event>)
      modifies this, store
      ensures gridIsEmpty ==> ok && events == [] && State() == old(State()) && store.rows == old(store.rows)
      ensures !gridIsEmpty ==>
        var table := StartSession(old(store.rows), old(State()), frameSession).table;
        var out := Fire(table, Order(candidates));
        (ok <==> outage.None? || !StoreAsked(old(State()), frameSession, out.events, outage.value)) &&
        State() == Engine(Some(frameSession),
                          if ok then out.table
                          else if outage.value.Reading? then old(State()).table
                          else Tabulate(table, out.events[..EnteredBefore(outage.value.at, |out.events|)])) &&
        events == (if ok then New(old(store.rows), out.events) else []) && store.rows == old(store.rows) + events
    {
      hide Fire, Order, Tabulate, LastFired, New;
      if gridIsEmpty {
        return true, [];
      }
      if session != Some(frameSession) {
        session := Some(frameSession);
        var table;
        ok, table := store.ReadLastFired(frameSession, outage != Some(Reading));
        if !ok { return false, []; }
        last := table;
      }
      var due;
      var at := if outage.Some? && outage.value.Storing? then Some(outage.value.at) else None;
      ok, due := EnterDue(Order(candidates), at);
      if !ok { return false, []; }
      events := [];
      if due != [] {
        ok, events := store.Add(due, at.None?);
        WholeList(due);
      } else {
        NothingDue(store.rows);
      }
    }

    /** Enter the due events of a frame in the table, one after another, unless the store raises on the way. */
    method EnterDue(ordered: seq<Event>, outage: Option<nat>) returns (ok: bool, due: seq<Event>)
      modifies this`last
      ensures var out := Fire(old(last), ordered);
              if ok then due == out.events && last == out.table && last == Tabulate(old(last), due) &&
                         (outage.Some? ==> EnteredBefore(outage.value, |due|) == |due|)
              else outage.Some? && out.events != [] && last == Tabulate(old(last), EnteredOf(out.events, outage))
    {
      hide Tabulate;
      ok, due := true, [];
      NothingEntered(last);
      for i := 0 to |ordered|
        invariant ok
        invariant Fire(old(last), ordered).table == Fire(last, ordered[i..]).table
        invariant Fire(old(last), ordered).events == due + Fire(last, ordered[i..]).events
        invariant last == Tabulate(old(last), due)
        invariant outage.Some? && 1 <= outage.value ==> |due| < outage.value
      {
        var e := ordered[i];
        FireOne(last, ordered, i, due);
        hide Fire;
        if Due(last, e.key, e.barEpoch, e.severity.Rank()) {
          EnterOne(old(last), due, e);
          last := last[e.key := Fired(e.barEpoch, e.severity.Rank())];
          due := due + [e];
          if outage == Some(|due|) {
            SoFar(due, Fire(last, ordered[i + 1..]).events);
            ok := false;
            return;
          }
        }
      }
      assert ordered[|ordered|..] == [];
    }
  }

  lemma NothingEntered(table: Table)
    ensures Tabulate(table, []) == table
  {
  }

  /** One turn of the loop over a frame's candidates. */
  lemma FireOne(table: Table, ordered: seq<Event>, i: nat, due: seq<Event>)
    requires i < |ordered|
    ensures var e, from := ordered[i], Fire(table, ordered[i..]);
            if Due(table, e.key, e.barEpoch, e.severity.Rank())
            then var next := Fire(table[e.key := Fired(e.barEpoch, e.severity.Rank())], ordered[i + 1..]);
                 from.table == next.table && due + from.events == (due + [e]) + next.events
            else from == Fire(table, ordered[i + 1..])
  {
    assert ordered[i..][0] == ordered[i] && ordered[i..][1..] == ordered[i + 1..];
  }

  lemma SoFar(due: seq<Event>, more: seq<Event>)
    ensures (due + more)[..|due|] == due
  {
  }

  /** One turn of the loop that stores events. */
  lemma NewOne(rows: seq<Event>, events: seq<Event>, i: nat, added: seq<Event>)
    requires i < |events|
    ensures added + New(rows, events[i..]) ==
            if HasId(rows, events[i].id) then added + New(rows, events[i + 1..])
            else (added + [events[i]]) + New(rows + [events[i]], events[i + 1..])
  {
    assert events[i..][1..] == events[i + 1..];
  }

  /** Whether the store is asked where it would fail. */
  predicate StoreAsked(engine: Engine, s: int, events: seq<Event>, failure: Failure) {
    if failure.Reading? then engine.session != Some(s) else events != []
  }

  lemma WholeList(events: seq<Event>)
    ensures events[..|events|] == events
  {
  }

  lemma NothingDue(rows: seq<Event>)
    ensures New(rows, []) == [] && rows + [] == rows
  {
  }

  function EnteredOf(events: seq<Event>, outage: Option<nat>): seq<Event> {
    if outage.None? then events else events[..EnteredBefore(outage.value, |events|)]
  }

  lemma EnterOne(table: Table, due: seq<Event>, e: Event)
    ensures Tabulate(table, due + [e]) == Tabulate(table, due)[e.key := Fired(e.barEpoch, e.severity.Rank())]
  {
    TabulateConcat(table, due, [e]);
  }

  lemma {:induction false} StepsThenOne(market: Market, w: World, s: int, from: nat, to: nat)
    requires from <= to
    ensures StepMinutes(market, w, s, from, to + 1) == StepMinute(market, StepMinutes(market, w, s, from, to), s, to)
    decreases MaxInt(to - from, 0)
  {
    if from < to {
      StepsThenOne(market, StepMinute(market, w, s, from), s, from + 1, to);
    } else {
      var next := StepMinute(market, w, s, from);
      assert StepMinutes(market, next, s, from + 1, to + 1) == next;
    }
  }

  lemma NoSteps(market: Market, w: World, s: int, from: nat)
    ensures StepMinutes(market, w, s, from, from) == w
  {
  }

  /** What `follow_archive` finds on disk: the latest session, its files' times and the minutes they cover. */
  datatype Disk = Disk(session: int, archiveTime: int, streamTime: int, readable: bool, coveredMinute: int)

  /** At which minute of a call the store fails, and where in it. */
  datatype Outage = Outage(minute: nat, failure: Failure)

  predicate HitsAt(outage: Option<Outage>, minute: nat) { outage.Some? && outage.value.minute == minute }

  class LiveRunner {
    const store: EventStore
    const engine: EventEngine
    var session: Option<int>
    var lastMinute: Option<nat>
    var seen: Option<(int, int, int)>
    var eventsEmitted: nat
    ghost var emitted: seq<Event>
    ghost var reached: map<int, nat>

    /** A process started on a store: whatever earlier processes reported is history. */
    constructor (store: EventStore, ghost emitted: seq<Event>, ghost reached: map<int, nat>)
      ensures this.store == store && engine.store == store && fresh(engine)
      ensures World() == EventRuns.World(store.rows, FreshEngine, FreshRunner, emitted, reached)
      ensures seen == None && eventsEmitted == 0
    {
      this.store := store;
      engine := new EventEngine(store);
      session, lastMinute, seen, eventsEmitted := None, None, None, 0;
      this.emitted, this.reached := emitted, reached;
    }

    ghost function World(): World
      reads this, engine, store
    {
      EventRuns.World(store.rows, engine.State(), Runner(session, lastMinute), emitted, reached)
    }

    /** One step of the engine, and what the runner notes about it unless the store raises. */
    method Step(today: int, moment: nat, market: Market, outage: Option<Failure>) returns (ok: bool)
      requires engine.store == store && session == Some(today)
      modifies this, engine, store
      ensures ok <==> outage.None? || !Asks(market, old(World()), today, moment, outage.value)
      ensures World() == if ok then StepMinute(market, old(World()), today, moment)
                         else FailMinute(market, old(World()), today, moment, outage.value)
      ensures session == Some(today) && seen == old(seen)
      ensures eventsEmitted - old(eventsEmitted) == |emitted| - |old(emitted)|
    {
      ghost var before := World();
      var events;
      ok, events := engine.Build(today, moment == 0, if moment == 0 then [] else market(today, moment), outage);
      if !ok { return; }
      lastMinute := Some(moment);
      emitted := emitted + events;
      reached := reached[today := if before.Reached(today) <= moment then moment + 1 else before.Reached(today)];
      eventsEmitted := eventsEmitted + |events|;
      assert moment == 0 ==> emitted == before.emitted;
    }

    /**
     * Step minutes from `start` on, up to a limit or until told to stop; if the store fails at the
     * outage's minute and is asked then, the loop ends there.
     */
    method StepThrough(today: int, start: nat, limit: int, stopAfter: nat, outage: Option<Outage>, market: Market)
        returns (steps: nat, raised: bool)
      requires engine.store == store && session == Some(today)
      modifies this, engine, store
      ensures var through := StepMinutes(market, old(World()), today, start, start + steps);
              raised == (steps < stopAfter && start + steps <= limit && HitsAt(outage, start + steps) &&
                         Asks(market, through, today, start + steps, outage.value.failure)) &&
              World() == if raised then FailMinute(market, through, today, start + steps, outage.value.failure)
                         else through
      ensures steps <= stopAfter && (steps > 0 ==> start + steps <= limit + 1)
      ensures steps < stopAfter && !raised ==> start + steps > limit
      ensures session == Some(today) && seen == old(seen)
      ensures eventsEmitted - old(eventsEmitted) == |emitted| - |old(emitted)|
    {
      hide StepMinutes, StepMinute, FailMinute, Asks;
      ghost var entered := World();
      steps, raised := 0, false;
      NoSteps(market, entered, today, start);
      while start + steps <= limit && steps < stopAfter
        invariant steps <= stopAfter && (steps > 0 ==> start + steps <= limit + 1)
        invariant session == Some(today) && seen == old(seen)
        invariant World() == StepMinutes(market, entered, today, start, start + steps)
        invariant eventsEmitted - old(eventsEmitted) == |emitted| - |old(emitted)|
      {
        StepsThenOne(market, entered, today, start, start + steps);
        var failure := if HitsAt(outage, start + steps) then Some(outage.value.failure) else None;
        var ok := Step(today, start + steps, market, failure);
        if !ok {
          raised := true;
          return;
        }
        steps := steps + 1;
      }
    }

    /**
     * Step every minute the files now cover, up to 15:15 and the current minute, unless the files
     * are unchanged or unreadable or the process is told to stop. Returns the steps taken, or raises
     * where the store does: the call then was an undisturbed one up to that minute and a failed attempt at it.
     */
    method FollowArchive(disk: Option<Disk>, nowMinute: int, stopAfter: nat, outage: Option<Outage>, market: Market)
        returns (steps: nat, raised: bool)
      requires engine.store == store
      modifies this, engine, store
      ensures var idle := disk.None? || !disk.value.readable ||
                          old(seen) == Some((disk.value.session, disk.value.archiveTime, disk.value.streamTime));
              if idle then World() == old(World()) && steps == 0 && !raised && seen == old(seen)
              else
                var s, limit := disk.value.session, MinInt(disk.value.coveredMinute, nowMinute);
                var next := Enter(old(World()), s).runner.Next();
                (raised ==> HitsAt(outage, next + steps)) &&
                World() == (if raised
                            then Apply(market, Apply(market, old(World()), Follow(s, limit, steps)),
                                       Fail(s, outage.value.failure))
                            else Apply(market, old(World()), Follow(s, limit, stopAfter))) &&
                (!raised ==> steps == MaxInt(End(next, limit, stopAfter) - next, 0)) &&
                seen == if !raised && steps < stopAfter
                        then Some((s, disk.value.archiveTime, disk.value.streamTime)) else old(seen)
      ensures eventsEmitted - old(eventsEmitted) == |emitted| - |old(emitted)|
    {
      hide StepMinutes, StepMinute, FailMinute, Asks;
      steps, raised := 0, false;
      if disk.None? { return; }
      var d := disk.value;
      if seen == Some((d.session, d.archiveTime, d.streamTime)) || !d.readable { return; }
      var limit := MinInt(MinInt(d.coveredMinute, nowMinute), LAST_MINUTE);
      if session != Some(d.session) {
        session, lastMinute := Some(d.session), None;
      }
      ghost var entered := World();
      assert entered == Enter(old(World()), d.session);
      var start := if lastMinute.Some? then lastMinute.value + 1 else 0;
      steps, raised := StepThrough(d.session, start, limit, stopAfter, outage, market);
      NoSteps(market, entered, d.session, start);
      StepsLand(market, entered, d.session, start, start + steps);
      if !raised && steps < stopAfter {
        seen := Some((d.session, d.archiveTime, d.streamTime));
      }
    }
  }

  /** Where stepping leaves the runner. */
  lemma {:induction false} StepsLand(market: Market, w: World, s: int, first: nat, end: nat)
    requires first <= end && w.runner.session == Some(s) && w.runner.Next() == first
    ensures var w' := StepMinutes(market, w, s, first, end); w'.runner.session == Some(s) && w'.runner.Next() == end
    decreases end - first
  {
    if first < end { StepsLand(market, StepMinute(market, w, s, first), s, first + 1, end); }
  }
}
