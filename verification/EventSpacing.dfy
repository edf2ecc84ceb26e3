/** How far apart events are. */
module EventSpacing {
  import opened Basics
  import opened EventRules
  import opened EventRestart
  import opened SessionClock
  import opened EventRuns
  import opened EventLosses

  /** `b` may follow `a`: the cooldown has passed or the severity has risen. */
  predicate Allowed(a: Event, b: Event) {
    a.barEpoch < b.barEpoch &&
    (b.barEpoch - a.barEpoch >= 15 * 60 || a.severity.Rank() < b.severity.Rank())
  }

  ghost predicate Spaced(k: seq<Event>) {
    forall i :: 0 <= i < |k| - 1 ==> Allowed(k[i], k[i + 1])
  }

  lemma {:induction false} OfKeySingle(events: seq<Event>, key: Key, e: Event)
    requires DistinctKeys(events) && e in events && e.key == key
    ensures OfKey(events, key) == [e]
  {
    var init, last := events[..|events| - 1], events[|events| - 1];
    if last == e {
      OfKeyNone(init, key);
    } else {
      var i :| 0 <= i < |events| && events[i] == e;
      assert init[i] == e;
      OfKeySingle(init, key, e);
    }
  }

  lemma {:induction false} OfKeyNone(events: seq<Event>, key: Key)
    requires forall i :: 0 <= i < |events| ==> events[i].key != key
    ensures OfKey(events, key) == []
  {
    if events != [] { OfKeyNone(events[..|events| - 1], key); }
  }

  /** The cooldown table holds, for each key, exactly its latest event. */
  ghost predicate HoldsLatest(table: Table, k: seq<Event>, key: Key) {
    if k == [] then key !in table
    else key in table && table[key] == Fired(k[|k| - 1].barEpoch, k[|k| - 1].severity.Rank())
  }

  /** The events one minute adds to one key: its leader if due, otherwise none. */
  lemma MinuteOfKey(market: Market, h: Hash, s: int, m: nat, table: Table, key: Key)
    requires Faithful(market, h)
    ensures var leader := LeaderAt(market, s, m, key);
            var due := leader.Some? && Due(table, key, BarEpoch(s, m), leader.value.severity.Rank());
            OfKey(Fire(table, Order(Candidates(market, s, m))).events, key) == (if due then [leader.value] else []) &&
            (due ==> leader.value.barEpoch == BarEpoch(s, m)) &&
            Lookup(Fire(table, Order(Candidates(market, s, m))).table, key) ==
            if due then Some(Fired(BarEpoch(s, m), leader.value.severity.Rank())) else Lookup(table, key)
  {
    var frame := Order(Candidates(market, s, m));
    OrderedFrame(market, h, s, m);
    FireOneKey(table, frame, key, BarEpoch(s, m));
    FireDistinctKeys(table, frame, BarEpoch(s, m));
    LeaderIsMember(frame, key);
    var events, leader := Fire(table, frame).events, Leader(frame, key);
    if leader.Some? && Due(table, key, BarEpoch(s, m), leader.value.severity.Rank()) {
      OfKeySingle(events, key, leader.value);
    } else {
      OfKeyNone(events, key);
    }
  }

  lemma OneMore(table: Table, table': Table, k: seq<Event>, e: Event, key: Key, epoch: int)
    requires Spaced(k) && HoldsLatest(table, k, key) && (k != [] ==> k[|k| - 1].barEpoch < epoch)
    requires e.barEpoch == epoch && Due(table, key, epoch, e.severity.Rank())
    requires Lookup(table', key) == Some(Fired(epoch, e.severity.Rank()))
    ensures Spaced(k + [e]) && HoldsLatest(table', k + [e], key)
  {
    if k != [] { assert Allowed(k[|k| - 1], e); }
  }

  /** A key's events are spaced, its table entry is the latest of them, and all precede `epoch`. */
  ghost predicate KeyRun(run: Outcome, key: Key, epoch: int) {
    var k := OfKey(run.events, key);
    Spaced(k) && HoldsLatest(run.table, k, key) && (k != [] ==> k[|k| - 1].barEpoch < epoch)
  }

  lemma NoEventsYet(key: Key, epoch: int)
    ensures KeyRun(Outcome(map[], []), key, epoch)
  {
  }

  lemma SpacingStep(market: Market, h: Hash, s: int, m: nat, run: Outcome, key: Key)
    requires Faithful(market, h) && KeyRun(run, key, BarEpoch(s, m))
    ensures var out := Fire(run.table, Order(Candidates(market, s, m)));
            KeyRun(Outcome(out.table, run.events + out.events), key, BarEpoch(s, m + 1))
  {
    var out := Fire(run.table, Order(Candidates(market, s, m)));
    var k, added := OfKey(run.events, key), OfKey(out.events, key);
    MinuteOfKey(market, h, s, m, run.table, key);
    OfKeyConcat(run.events, out.events, key);
    if added != [] {
      OneMore(run.table, out.table, k, added[0], key, BarEpoch(s, m));
    } else {
      assert k + added == k;
    }
  }

  lemma {:induction false} KeySpacing(market: Market, h: Hash, s: int, n: nat, key: Key)
    requires Faithful(market, h)
    ensures KeyRun(Reference(market, s, n), key, BarEpoch(s, n))
  {
    hide KeyRun, Faithful;
    if n == 0 {
      NoEventsYet(key, BarEpoch(s, 0));
    } else {
      KeySpacing(market, h, s, n - 1, key);
      SpacingStep(market, h, s, n - 1, Reference(market, s, n - 1), key);
    }
  }

  lemma {:induction false} Climb(k: seq<Event>, i: nat, j: nat)
    requires Spaced(k) && i < j < |k| && k[j].barEpoch - k[i].barEpoch < COOLDOWN_SECONDS
    ensures k[i].barEpoch < k[j].barEpoch
    ensures k[i].severity.Rank() + (j - i) <= k[j].severity.Rank()
    decreases j
  {
    assert Allowed(k[j - 1], k[j]);
    if i < j - 1 {
      Rising(k, i, j - 1);
      Climb(k, i, j - 1);
    }
  }

  lemma {:induction false} Rising(k: seq<Event>, i: nat, j: nat)
    requires Spaced(k) && i < j < |k|
    ensures k[i].barEpoch < k[j].barEpoch
    decreases j
  {
    assert Allowed(k[j - 1], k[j]);
    if i < j - 1 { Rising(k, i, j - 1); }
  }

  lemma {:induction false} OfKeyMembers(rows: seq<Event>, key: Key, e: Event)
    ensures e in OfKey(rows, key) <==> e in rows && e.key == key
  {
    if rows != [] {
      OfKeyMembers(rows[..|rows| - 1], key, e);
      assert rows == rows[..|rows| - 1] + [rows[|rows| - 1]];
    }
  }

  /** Where a stored event stands among all the firings of its key. */
  lemma PlaceOf(market: Market, h: Hash, ops: seq<Op>, e: Event) returns (i: nat)
    requires Faithful(market, h) && NoCollision(market) && e in Run(market, ops).rows
    ensures var k := OfKey(Reference(market, e.session, Run(market, ops).Reached(e.session)).events, e.key);
            i < |k| && k[i] == e && Spaced(k)
  {
    var n := Run(market, ops).Reached(e.session);
    WhichEventsAreStored(market, h, ops, e);
    OfKeyMembers(Reference(market, e.session, n).events, e.key, e);
    KeySpacing(market, h, e.session, n, e.key);
    var k := OfKey(Reference(market, e.session, n).events, e.key);
    i :| 0 <= i < |k| && k[i] == e;
  }

  ghost predicate StoredOf(market: Market, ops: seq<Op>, s: int, key: Key, e: Event) {
    e in Run(market, ops).rows && e.session == s && e.key == key
  }

  /**
   * After any history, failures of the store included: of two stored events of one key the later one
   * is fifteen minutes later or more severe.
   */
  lemma StoredPairSpacing(market: Market, h: Hash, ops: seq<Op>, s: int, key: Key, e: Event, f: Event)
    requires Faithful(market, h) && NoCollision(market)
    requires StoredOf(market, ops, s, key, e) && StoredOf(market, ops, s, key, f) && e != f
    ensures Allowed(e, f) || Allowed(f, e)
  {
    var i := PlaceOf(market, h, ops, e);
    var j := PlaceOf(market, h, ops, f);
    hide Run, Reference, OfKey, Spaced, Allowed, Faithful, NoCollision;
    InEitherOrder(OfKey(Reference(market, s, Run(market, ops).Reached(s)).events, key), i, j);
  }

  lemma InEitherOrder(k: seq<Event>, i: nat, j: nat)
    requires Spaced(k) && i < |k| && j < |k| && i != j
    ensures Allowed(k[i], k[j]) || Allowed(k[j], k[i])
  {
    if i < j { LaterAllowed(k, i, j); } else { LaterAllowed(k, j, i); }
  }

  lemma LaterAllowed(k: seq<Event>, i: nat, j: nat)
    requires Spaced(k) && i < j < |k|
    ensures Allowed(k[i], k[j])
  {
    Rising(k, i, j);
    if k[j].barEpoch - k[i].barEpoch < COOLDOWN_SECONDS { Climb(k, i, j); }
  }

  /** So four stored events of one key always span at least fifteen minutes. */
  lemma AtMostThreePerWindow(market: Market, h: Hash, ops: seq<Op>, s: int, key: Key, a: Event, b: Event, c: Event,
                             d: Event)
    requires Faithful(market, h) && NoCollision(market)
    requires StoredOf(market, ops, s, key, a) && StoredOf(market, ops, s, key, b)
    requires StoredOf(market, ops, s, key, c) && StoredOf(market, ops, s, key, d)
    requires a.barEpoch < b.barEpoch < c.barEpoch < d.barEpoch
    ensures d.barEpoch - a.barEpoch >= 15 * 60
  {
    StoredPairSpacing(market, h, ops, s, key, a, b);
    StoredPairSpacing(market, h, ops, s, key, b, c);
    StoredPairSpacing(market, h, ops, s, key, c, d);
  }
}
