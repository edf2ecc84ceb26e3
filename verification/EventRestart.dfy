/** Re-stepping a session. */
module EventRestart {
  // Every restart steps the session again from its open with a cooldown table rebuilt from the
  // store, a table whose entries lie in the future of the minutes being stepped. The store still
  // ends with exactly the events of one uninterrupted run.

  import opened Basics
  import opened EventRules
  import opened SessionClock

  /** The candidates found in the frame of a session at a minute after the open. */
  type Market = (int, nat) -> seq<Event>

  /** Event ids: a hash of the key and the bar epoch. */
  type Hash = (Key, int) -> nat

  function Candidates(market: Market, session: int, minute: nat): seq<Event> {
    if minute == 0 then [] else market(session, minute)
  }

  /** An event that is a candidate of some minute. */
  ghost predicate Offered(market: Market, e: Event) { exists s, m: nat :: e in Candidates(market, s, m) }

  /** No two events that ever come up share an id unless they are of one key and bar. */
  ghost predicate NoCollision(market: Market) {
    forall e, f :: Offered(market, e) && Offered(market, f) && e.id == f.id ==>
                   e.key == f.key && e.barEpoch == f.barEpoch
  }

  ghost predicate Faithful(market: Market, h: Hash) {
    forall s, m: nat, e :: e in Candidates(market, s, m) ==> Stamped(h, s, m, e)
  }

  ghost predicate Stamped(h: Hash, s: int, m: int, e: Event) {
    e.session == s && e.barEpoch == BarEpoch(s, m) && e.id == h(e.key, e.barEpoch)
  }

  // ---- The uninterrupted run ----

  /** Table and events after the first `n` minutes of a session stepped once, in order. */
  function Reference(market: Market, s: int, n: nat): Outcome {
    if n == 0 then Outcome(map[], [])
    else
      var before := Reference(market, s, n - 1);
      var out := Fire(before.table, Order(Candidates(market, s, n - 1)));
      Outcome(out.table, before.events + out.events)
  }

  function LeaderAt(market: Market, s: int, m: nat, key: Key): Option<Event> {
    Leader(Order(Candidates(market, s, m)), key)
  }

  ghost predicate FiredAt(market: Market, s: int, m: nat, key: Key) {
    var leader := LeaderAt(market, s, m, key);
    leader.Some? && Due(Reference(market, s, m).table, key, BarEpoch(s, m), leader.value.severity.Rank())
  }

  /** `key` fired at minute `m` and left `entry` in the table. */
  ghost predicate FiredAs(market: Market, s: int, m: nat, key: Key, entry: Fired) {
    FiredAt(market, s, m, key) &&
    entry == Fired(BarEpoch(s, m), LeaderAt(market, s, m, key).value.severity.Rank())
  }

  lemma OrderedFrame(market: Market, h: Hash, s: int, m: nat)
    requires Faithful(market, h)
    ensures FallingRanks(Order(Candidates(market, s, m)))
    ensures forall e :: e in Order(Candidates(market, s, m)) ==> Stamped(h, s, m, e)
  {
    var c := Candidates(market, s, m);
    OrderFalling(c);
    forall e | e in Order(c) ensures Stamped(h, s, m, e) {
      OrderMembers(c, e);
    }
  }

  lemma ReferenceStep(market: Market, h: Hash, s: int, m: nat, key: Key)
    requires Faithful(market, h)
    ensures Lookup(Reference(market, s, m + 1).table, key) ==
            if FiredAt(market, s, m, key)
            then Some(Fired(BarEpoch(s, m), LeaderAt(market, s, m, key).value.severity.Rank()))
            else Lookup(Reference(market, s, m).table, key)
    ensures FiredAt(market, s, m, key) ==>
      LeaderAt(market, s, m, key).value in Reference(market, s, m + 1).events
  {
    OrderedFrame(market, h, s, m);
    FireOneKey(Reference(market, s, m).table, Order(Candidates(market, s, m)), key, BarEpoch(s, m));
  }

  /** Every entry of the uninterrupted run's table is the mark of some earlier firing. */
  lemma {:induction false} EntryOrigin(market: Market, h: Hash, s: int, n: nat, key: Key) returns (m: nat)
    requires Faithful(market, h)
    requires key in Reference(market, s, n).table
    ensures m < n && FiredAs(market, s, m, key, Reference(market, s, n).table[key])
    decreases n
  {
    ReferenceStep(market, h, s, n - 1, key);
    if FiredAt(market, s, n - 1, key) {
      m := n - 1;
    } else {
      m := EntryOrigin(market, h, s, n - 1, key);
    }
  }

  lemma {:induction false} ReferenceGrows(market: Market, s: int, m: nat, n: nat, e: Event)
    requires m <= n && e in Reference(market, s, m).events
    ensures e in Reference(market, s, n).events
    decreases n - m
  {
    if m < n { ReferenceGrows(market, s, m + 1, n, e); }
  }

  /** Events of the first `n` minutes: stamped, and from bars before minute `n`'s. */
  ghost predicate StampedBefore(h: Hash, s: int, n: nat, rows: seq<Event>) {
    forall e :: e in rows ==> e.session == s && e.id == h(e.key, e.barEpoch) && e.barEpoch < BarEpoch(s, n)
  }

  ghost predicate RisingEpochs(rows: seq<Event>) {
    forall i, j :: 0 <= i < j < |rows| ==> rows[i].barEpoch <= rows[j].barEpoch
  }

  lemma MinuteEvents(market: Market, h: Hash, s: int, m: nat, table: Table)
    requires Faithful(market, h)
    ensures forall e :: e in Fire(table, Order(Candidates(market, s, m))).events ==>
            Stamped(h, s, m, e) && Offered(market, e)
  {
    OrderedFrame(market, h, s, m);
    FireMembers(table, Order(Candidates(market, s, m)));
    forall e | e in Order(Candidates(market, s, m)) ensures Offered(market, e) {
      OrderMembers(Candidates(market, s, m), e);
    }
  }

  lemma RisingAppend(a: seq<Event>, b: seq<Event>, epoch: int)
    requires RisingEpochs(a)
    requires forall e :: e in a ==> e.barEpoch < epoch
    requires forall e :: e in b ==> e.barEpoch == epoch
    ensures RisingEpochs(a + b)
  {
    assert forall i :: 0 <= i < |a| ==> a[i] in a;
    assert forall i :: 0 <= i < |b| ==> b[i] in b;
  }

  lemma {:induction false} ReferenceEvents(market: Market, h: Hash, s: int, n: nat)
    requires Faithful(market, h)
    ensures StampedBefore(h, s, n, Reference(market, s, n).events)
    ensures RisingEpochs(Reference(market, s, n).events)
  {
    if n > 0 {
      var before := Reference(market, s, n - 1);
      var events := Fire(before.table, Order(Candidates(market, s, n - 1))).events;
      ReferenceEvents(market, h, s, n - 1);
      MinuteEvents(market, h, s, n - 1, before.table);
      RisingAppend(before.events, events, BarEpoch(s, n - 1));
      assert Reference(market, s, n).events == before.events + events;
    }
  }

  lemma {:induction false} ReferenceTabulates(market: Market, s: int, n: nat)
    ensures Reference(market, s, n).table == Tabulate(map[], Reference(market, s, n).events)
  {
    if n > 0 {
      var before := Reference(market, s, n - 1);
      var cands := Order(Candidates(market, s, n - 1));
      ReferenceTabulates(market, s, n - 1);
      FireTabulates(before.table, cands);
      TabulateConcat(map[], before.events, Fire(before.table, cands).events);
    }
  }

  /** The store's rebuilt table is the table the uninterrupted run would hold. */
  lemma RebuiltTable(market: Market, h: Hash, s: int, n: nat, rows: seq<Event>)
    requires Faithful(market, h)
    requires OfSession(rows, s) == Reference(market, s, n).events
    ensures LastFired(rows, s) == Reference(market, s, n).table
  {
    ReferenceEvents(market, h, s, n);
    ByEpochOfSorted(Reference(market, s, n).events);
    ReferenceTabulates(market, s, n);
  }

  // ---- Stepping a session again ----

  /** An entry that some firing of the uninterrupted run before minute `n` leaves. */
  ghost predicate Mark(market: Market, s: int, n: nat, key: Key, entry: Fired) {
    exists j: nat :: j < n && FiredAs(market, s, j, key, entry)
  }

  /** An entry so old that every minute of the session finds its key due: that of an earlier session. */
  predicate Stale(s: int, entry: Fired) { entry.epoch + COOLDOWN_SECONDS <= BarEpoch(s, 0) }

  /** An entry from behind the session's last minute: that of a later session. */
  predicate Ahead(s: int, entry: Fired) { entry.epoch >= BarEpoch(s, LAST_MINUTE + 1) }

  predicate NothingAhead(s: int, table: Table) { forall key :: key in table ==> !Ahead(s, table[key]) }

  /** A key's entry as the session heeds it. */
  function Entry(s: int, table: Table, key: Key): Option<Fired> {
    if key in table && !Stale(s, table[key]) then Some(table[key]) else None
  }

  ghost predicate Marks(market: Market, s: int, n: nat, table: Table) {
    forall key :: key in table && !Stale(s, table[key]) ==> Mark(market, s, n, key, table[key])
  }

  /** A table that a pass over the session may begin with: its own firings, and other sessions' entries. */
  ghost predicate Fits(market: Market, s: int, table: Table) {
    forall key :: key in table && !Stale(s, table[key]) && !Ahead(s, table[key]) ==>
                  Mark(market, s, LAST_MINUTE + 1, key, table[key])
  }

  ghost predicate FiredAbove(market: Market, s: int, i: nat, key: Key, rank: int) {
    FiredAt(market, s, i, key) && LeaderAt(market, s, i, key).value.severity.Rank() > rank
  }

  /** Some firing of the uninterrupted run before minute `p` outranks `rank`. */
  ghost predicate Outranked(market: Market, s: int, p: nat, key: Key, rank: int) {
    exists i: nat :: i < p && FiredAbove(market, s, i, key, rank)
  }

  /**
   * At minute `p` of a pass that began with the table `start`, the key's entry is still the one it
   * began with: a firing that is not yet in the past, which nothing fired before `p` outranks.
   */
  ghost predicate Waits(market: Market, s: int, start: Table, p: nat, key: Key) {
    key in start && start[key].epoch >= BarEpoch(s, p) && !Outranked(market, s, p, key, start[key].rank)
  }

  /**
   * The pass does not fire the key's event of minute `m` again: the table it began with knows a
   * firing no earlier, which neither that event nor any before it outranks.
   */
  ghost predicate HeldBack(market: Market, s: int, start: Table, m: nat, key: Key) {
    key in start && start[key].epoch >= BarEpoch(s, m) && !Outranked(market, s, m + 1, key, start[key].rank)
  }

  /** A key's entry at minute `p` of a pass: the one it began with, or the uninterrupted run's. */
  ghost function Expected(market: Market, s: int, start: Table, p: nat, key: Key): Option<Fired> {
    if Waits(market, s, start, p, key) then Some(start[key]) else Lookup(Reference(market, s, p).table, key)
  }

  /** How far a key has come at minute `p`: beyond it once a failed attempt has entered the key. */
  function Stage(p: nat, entered: set<Key>, key: Key): nat { if key in entered then p + 1 else p }

  /**
   * At minute `p` of a pass, some keys entered already by attempts at that minute that failed: the others
   * are as before the minute, those as after it.
   */
  ghost predicate MidMinute(market: Market, s: int, start: Table, p: nat, entered: set<Key>, table: Table) {
    forall key :: Entry(s, table, key) == Expected(market, s, start, Stage(p, entered, key), key)
  }

  ghost predicate OnPass(market: Market, s: int, start: Table, p: nat, table: Table) {
    MidMinute(market, s, start, p, {}, table)
  }

  /** The pass fires the key at minute `m`: the uninterrupted run did, and it is not held back. */
  ghost predicate Fires(market: Market, s: int, start: Table, m: nat, key: Key) {
    FiredAt(market, s, m, key) && !HeldBack(market, s, start, m, key)
  }

  ghost predicate AllFire(market: Market, s: int, start: Table, m: nat, keys: set<Key>) {
    forall key :: key in keys ==> Fires(market, s, start, m, key)
  }

  /** What minute `m` of a pass fires: the leaders of the keys that fire. */
  ghost predicate Brings(market: Market, s: int, start: Table, m: nat, e: Event) {
    Fires(market, s, start, m, e.key) && LeaderAt(market, s, m, e.key) == Some(e)
  }

  lemma MarksGrow(market: Market, s: int, n: nat, more: nat, table: Table)
    requires n <= more && Marks(market, s, n, table)
    ensures Marks(market, s, more, table)
  {
    forall key | key in table && !Stale(s, table[key]) ensures Mark(market, s, more, key, table[key]) {
      assert Mark(market, s, n, key, table[key]);
    }
  }

  /** Nothing fires at the open, so every mark is of a later minute. */
  lemma MarkAfterOpen(market: Market, s: int, n: nat, key: Key, entry: Fired)
    requires Mark(market, s, n, key, entry)
    ensures BarEpoch(s, 1) <= entry.epoch < BarEpoch(s, n)
  {
    assert LeaderAt(market, s, 0, key) == None;
  }

  /** At the first minute every entry waits that the table the pass begins with has for the session to heed. */
  lemma PassBegins(market: Market, s: int, table: Table)
    requires Fits(market, s, table)
    ensures OnPass(market, s, table, 1, table)
  {
    forall key: Key ensures Entry(s, table, key) == Expected(market, s, table, 1, key) {
      assert LeaderAt(market, s, 0, key) == None;
      assert Order(Candidates(market, s, 0)) == [];
      assert Reference(market, s, 1) == Reference(market, s, 0);
      if key in table && !Stale(s, table[key]) {
        assert !FiredAbove(market, s, 0, key, table[key].rank);
        if !Ahead(s, table[key]) { MarkAfterOpen(market, s, LAST_MINUTE + 1, key, table[key]); }
      }
    }
  }

  lemma OutrankedNext(market: Market, s: int, p: nat, key: Key, rank: int)
    ensures Outranked(market, s, p + 1, key, rank) <==>
            Outranked(market, s, p, key, rank) || FiredAbove(market, s, p, key, rank)
  {
    if FiredAbove(market, s, p, key, rank) { assert p < p + 1; }
    if Outranked(market, s, p, key, rank) {
      var i: nat :| i < p && FiredAbove(market, s, i, key, rank);
      assert i < p + 1;
    }
  }

  /** A candidate that outranks a waiting entry fired in the uninterrupted run too. */
  lemma FiresFromTheFuture(market: Market, h: Hash, s: int, start: Table, p: nat, key: Key)
    requires Faithful(market, h) && Waits(market, s, start, p, key)
    requires LeaderAt(market, s, p, key).Some?
    requires LeaderAt(market, s, p, key).value.severity.Rank() > start[key].rank
    ensures FiredAt(market, s, p, key)
  {
    if key in Reference(market, s, p).table {
      var i := EntryOrigin(market, h, s, p, key);
      assert !FiredAbove(market, s, i, key, start[key].rank);
    }
  }

  /** An entry that waits is not outranked, is met, or gives way to the very event once fired here. */
  lemma WaitingStep(market: Market, h: Hash, s: int, start: Table, p: nat, key: Key)
    requires Faithful(market, h) && Fits(market, s, start) && Waits(market, s, start, p, key) && p <= LAST_MINUTE
    ensures var leader := LeaderAt(market, s, p, key);
            if leader.Some? && leader.value.severity.Rank() > start[key].rank
            then FiredAt(market, s, p, key) && !HeldBack(market, s, start, p, key) &&
                 !Waits(market, s, start, p + 1, key)
            else HeldBack(market, s, start, p, key) && Expected(market, s, start, p + 1, key) == Some(start[key])
  {
    var leader: Option<Event> := LeaderAt(market, s, p, key);
    var entry: Fired := start[key];
    OutrankedNext(market, s, p, key, entry.rank);
    if leader.Some? && leader.value.severity.Rank() > entry.rank {
      FiresFromTheFuture(market, h, s, start, p, key);
    } else if entry.epoch < BarEpoch(s, p + 1) {
      assert Mark(market, s, LAST_MINUTE + 1, key, entry);
      var j: nat :| j <= LAST_MINUTE && FiredAs(market, s, j, key, entry);
      assert j == p;
      ReferenceStep(market, h, s, p, key);
    }
  }

  /** A key in step stays in step and holds nothing back. */
  lemma InStepStep(market: Market, h: Hash, s: int, start: Table, p: nat, key: Key)
    requires Faithful(market, h) && !Waits(market, s, start, p, key)
    ensures !HeldBack(market, s, start, p, key) && !Waits(market, s, start, p + 1, key)
  {
    if key in start { OutrankedNext(market, s, p, key, start[key].rank); }
  }

  /** A key entered at this minute has its entry of after the minute, and is not due there again. */
  lemma EnteredStep(market: Market, h: Hash, s: int, start: Table, p: nat, key: Key)
    requires Faithful(market, h) && Fires(market, s, start, p, key)
    ensures var leader := LeaderAt(market, s, p, key);
            leader.Some? &&
            Expected(market, s, start, p + 1, key) == Some(Fired(BarEpoch(s, p), leader.value.severity.Rank()))
  {
    ReferenceStep(market, h, s, p, key);
  }

  /**
   * Stepping minute `p` again, key by key: the entry comes out as expected, and the key fires exactly
   * if the pass fires it there and no failed attempt has entered it.
   */
  lemma RestepKey(market: Market, h: Hash, s: int, start: Table, p: nat, entered: set<Key>, table: Table, key: Key)
    requires Faithful(market, h) && Fits(market, s, start) && p <= LAST_MINUTE
    requires Entry(s, table, key) == Expected(market, s, start, Stage(p, entered, key), key)
    requires key in entered ==> Fires(market, s, start, p, key)
    ensures var out := Fire(table, Order(Candidates(market, s, p)));
            Entry(s, out.table, key) == Expected(market, s, start, p + 1, key) &&
            forall e: Event :: e.key == key ==> (e in out.events <==> Brings(market, s, start, p, e) && key !in entered)
  {
    hide Fire, Order, Reference, HeldBack, Expected;
    OrderedFrame(market, h, s, p);
    FireOneKey(table, Order(Candidates(market, s, p)), key, BarEpoch(s, p));
    if key in entered {
      EnteredStep(market, h, s, start, p, key);
    } else {
      FreshKey(market, h, s, start, p, table, key);
    }
  }

  lemma FreshKey(market: Market, h: Hash, s: int, start: Table, p: nat, table: Table, key: Key)
    requires Faithful(market, h) && Fits(market, s, start) && p <= LAST_MINUTE
    requires Entry(s, table, key) == Expected(market, s, start, p, key)
    ensures var leader := LeaderAt(market, s, p, key);
            var due := leader.Some? && Due(table, key, BarEpoch(s, p), leader.value.severity.Rank());
            (due <==> Fires(market, s, start, p, key)) &&
            Expected(market, s, start, p + 1, key) ==
            if due then Some(Fired(BarEpoch(s, p), leader.value.severity.Rank())) else Entry(s, table, key)
  {
    hide Order, Reference, HeldBack;
    ReferenceStep(market, h, s, p, key);
    if Waits(market, s, start, p, key) {
      WaitingStep(market, h, s, start, p, key);
    } else {
      InStepStep(market, h, s, start, p, key);
    }
    hide Waits, Outranked;
  }

  /** Trying a minute fires exactly what the pass brings there and no failed attempt has entered. */
  lemma Restep(market: Market, h: Hash, s: int, start: Table, p: nat, entered: set<Key>, table: Table)
    requires Faithful(market, h) && Fits(market, s, start) && p <= LAST_MINUTE
    requires MidMinute(market, s, start, p, entered, table) && AllFire(market, s, start, p, entered)
    ensures var out := Fire(table, Order(Candidates(market, s, p)));
            OnPass(market, s, start, p + 1, out.table) &&
            forall e: Event :: e in out.events <==> Brings(market, s, start, p, e) && e.key !in entered
  {
    var out := Fire(table, Order(Candidates(market, s, p)));
    var next := p + 1;
    forall key: Key ensures Entry(s, out.table, key) == Expected(market, s, start, next, key) {
      RestepKey(market, h, s, start, p, entered, table, key);
    }
    forall e: Event ensures e in out.events <==> Brings(market, s, start, p, e) && e.key !in entered {
      RestepKey(market, h, s, start, p, entered, table, e.key);
    }
  }

  function KeysOf(events: seq<Event>): set<Key> { set e | e in events :: e.key }

  /** What an attempt that fails after its first `k` events leaves: their keys entered, the others untouched. */
  lemma PartlyEntered(market: Market, h: Hash, s: int, start: Table, p: nat, entered: set<Key>, table: Table, k: nat)
    requires Faithful(market, h) && Fits(market, s, start) && p <= LAST_MINUTE
    requires MidMinute(market, s, start, p, entered, table) && AllFire(market, s, start, p, entered)
    requires k <= |Fire(table, Order(Candidates(market, s, p))).events|
    ensures var first := Fire(table, Order(Candidates(market, s, p))).events[..k];
            MidMinute(market, s, start, p, entered + KeysOf(first), Tabulate(table, first)) &&
            AllFire(market, s, start, p, entered + KeysOf(first))
  {
    var out := Fire(table, Order(Candidates(market, s, p)));
    var first := out.events[..k];
    Restep(market, h, s, start, p, entered, table);
    OrderedFrame(market, h, s, p);
    FireDistinctKeys(table, Order(Candidates(market, s, p)), BarEpoch(s, p));
    FireTabulates(table, Order(Candidates(market, s, p)));
    hide Fire, Order, Expected, Fires;
    forall e | e in first ensures e in out.events {}
    forall key: Key
      ensures Entry(s, Tabulate(table, first), key) ==
              Expected(market, s, start, Stage(p, entered + KeysOf(first), key), key)
    {
      TabulatePrefix(table, out.events, k, key);
      assert Entry(s, out.table, key) == Expected(market, s, start, Stage(p + 1, {}, key), key);
      assert Entry(s, table, key) == Expected(market, s, start, Stage(p, entered, key), key);
    }
  }

  /** Once every firing the pass began with is past, its table is the uninterrupted run's, stale entries aside. */
  lemma CaughtUp(market: Market, s: int, start: Table, n: nat, table: Table)
    requires Marks(market, s, n, start) && OnPass(market, s, start, n, table)
    ensures forall key: Key :: Entry(s, table, key) == Lookup(Reference(market, s, n).table, key)
  {
    forall key: Key ensures Entry(s, table, key) == Lookup(Reference(market, s, n).table, key) {
      assert Entry(s, table, key) == Expected(market, s, start, Stage(n, {}, key), key);
      if key in start && !Stale(s, start[key]) { MarkAfterOpen(market, s, n, key, start[key]); }
    }
  }

  /** Stale entries change nothing that fires. */
  lemma {:induction false} StaleIsIgnored(s: int, table: Table, current: Table, candidates: seq<Event>)
    requires forall key: Key :: Entry(s, table, key) == Lookup(current, key)
    requires forall e :: e in candidates ==> e.barEpoch >= BarEpoch(s, 0)
    ensures Fire(table, candidates).events == Fire(current, candidates).events
    decreases |candidates|
  {
    if candidates != [] {
      var e, rest := candidates[0], candidates[1..];
      assert e in candidates;
      assert forall f :: f in rest ==> f in candidates;
      assert Lookup(current, e.key) == Entry(s, table, e.key);
      if Due(table, e.key, e.barEpoch, e.severity.Rank()) {
        var entry := Fired(e.barEpoch, e.severity.Rank());
        var table', current' := table[e.key := entry], current[e.key := entry];
        forall key: Key ensures Entry(s, table', key) == Lookup(current', key) {
          assert Entry(s, table, key) == Lookup(current, key);
        }
        StaleIsIgnored(s, table', current', rest);
      } else {
        StaleIsIgnored(s, table, current, rest);
      }
    }
  }

  /** What a pass fires at a minute is what the uninterrupted run stored there. */
  lemma BroughtIsReference(market: Market, h: Hash, s: int, start: Table, m: nat, n: nat, e: Event)
    requires Faithful(market, h) && Brings(market, s, start, m, e) && m < n
    ensures e in Reference(market, s, n).events && Stamped(h, s, m, e) && Offered(market, e)
  {
    ReferenceStep(market, h, s, m, e.key);
    ReferenceGrows(market, s, m + 1, n, e);
    OrderedFrame(market, h, s, m);
    LeaderIsMember(Order(Candidates(market, s, m)), e.key);
    OrderMembers(Candidates(market, s, m), e);
  }
}
