/** The recorder's conservation laws. */
module RecorderLaws {
  import opened Basics
  import opened OrderedRows
  import opened Recorder

  datatype Step = Packet_(packet: Packet) | Flush_(now: nat, disk: int -> Disk)

  ghost function Take(s: State, step: Step): State {
    match step
    case Packet_(p) => Observe(s, p)
    case Flush_(now, disk) => Flush(s, now, disk)
  }

  ghost function RunFrom(s: State, steps: seq<Step>): State {
    if steps == [] then s else Take(RunFrom(s, steps[..|steps| - 1]), steps[|steps| - 1])
  }

  // ---- Sums over minutes ----

  ghost function Sum(keys: set<int>, f: int -> int): int
    decreases |keys|
  {
    if keys == {} then 0
    else
      LeastExists(keys);
      var k :| IsLeast(keys, k);
      f(k) + Sum(keys - {k}, f)
  }

  /** Any key may be counted first. */
  lemma {:induction false} SumPick(keys: set<int>, f: int -> int, k: int)
    requires k in keys
    ensures Sum(keys, f) == f(k) + Sum(keys - {k}, f)
    decreases |keys|
  {
    LeastExists(keys);
    var least :| IsLeast(keys, least);
    assert Sum(keys, f) == f(least) + Sum(keys - {least}, f);
    if k != least {
      var rest := keys - {k};
      SumPick(keys - {least}, f, k);
      SumPick(rest, f, least);
      assert keys - {least} - {k} == rest - {least};
    }
  }

  lemma {:induction false} SumSame(keys: set<int>, f: int -> int, g: int -> int)
    requires forall k :: k in keys ==> f(k) == g(k)
    ensures Sum(keys, f) == Sum(keys, g)
    decreases |keys|
  {
    if keys != {} {
      LeastExists(keys);
      var least :| IsLeast(keys, least);
      SumPick(keys, f, least);
      SumPick(keys, g, least);
      SumSame(keys - {least}, f, g);
    }
  }

  /** A measure of one stock's bucket in one minute. */
  ghost function In(pending: map<int, Minute>, sid: string, f: Bucket -> int): int -> int {
    (m: int) => f(GetBucket(GetMinute(pending, m), sid))
  }

  ghost function FlushedTotal(flushed: seq<Flushed>, sid: string, f: Bucket -> int): int {
    if flushed == [] then 0
    else FlushedTotal(flushed[..|flushed| - 1], sid, f) + f(GetBucket(flushed[|flushed| - 1].rows, sid))
  }

  /** A measure of one stock over all its buckets: still pending, written and dropped. */
  ghost function Total(s: State, sid: string, f: Bucket -> int): int {
    Sum(s.pending.Keys, In(s.pending, sid, f)) + FlushedTotal(s.flushed, sid, f)
  }

  /** A packet changes one stock's totals by what it changes in the bucket it lands in. */
  lemma ObserveTotal(s: State, p: Packet, sid: string, f: Bucket -> int)
    requires f(Empty) == 0
    ensures var b := GetBucket(GetMinute(s.pending, p.Minute()), p.sid);
            Total(Observe(s, p), sid, f) == Total(s, sid, f) +
            if sid == p.sid then f(Account(b, GetLast(s.last, sid), p)) - f(b) else 0
  {
    var m, s' := p.Minute(), Observe(s, p);
    var g, g' := In(s.pending, sid, f), In(s'.pending, sid, f);
    var keys := s.pending.Keys - {m};
    assert s'.pending.Keys - {m} == keys;
    SumPick(s'.pending.Keys, g', m);
    forall k | k in keys ensures g(k) == g'(k) { assert GetMinute(s'.pending, k) == GetMinute(s.pending, k); }
    SumSame(keys, g, g');
    var rows := GetMinute(s.pending, m);
    assert g(m) == f(GetBucket(rows, sid));
    var b := GetBucket(rows, p.sid);
    assert GetMinute(s'.pending, m) == rows[p.sid := Account(b, GetLast(s.last, p.sid), p)];
    assert g'(m) == f(GetBucket(GetMinute(s'.pending, m), sid));
    if m in s.pending {
      SumPick(s.pending.Keys, g, m);
    } else {
      assert keys == s.pending.Keys;
      assert rows == map[] && g(m) == 0;
    }
    hide Account;
  }

  lemma {:induction false} FlushMinutesTotal(s: State, minutes: seq<int>, now: nat, disk: int -> Disk, sid: string,
                                             f: Bucket -> int)
    requires f(Empty) == 0
    ensures Total(FlushMinutes(s, minutes, now, disk), sid, f) == Total(s, sid, f)
    ensures FlushMinutes(s, minutes, now, disk).last == s.last
    decreases |minutes|
  {
    if minutes != [] {
      var m := minutes[0];
      var entry := Flushed(m, GetMinute(s.pending, m), FateOf(m, now, disk));
      var s' := State(s.pending - {m}, s.last, s.flushed + [entry]);
      var keys := s'.pending.Keys;
      assert s'.flushed[..|s'.flushed| - 1] == s.flushed;
      assert keys == s.pending.Keys - {m};
      var g, g' := In(s.pending, sid, f), In(s'.pending, sid, f);
      forall k | k in keys ensures g(k) == g'(k) { assert GetMinute(s'.pending, k) == GetMinute(s.pending, k); }
      SumSame(keys, g, g');
      if m in s.pending {
        SumPick(s.pending.Keys, In(s.pending, sid, f), m);
      } else {
        assert keys == s.pending.Keys;
      }
      FlushMinutesTotal(s', minutes[1..], now, disk, sid, f);
    }
  }

  // ---- Laws of every bucket ----

  /** Every traded lot is on one side or on none, and every packet's book is valid or not. */
  ghost predicate Balanced(b: Bucket) {
    b.buy + b.sell + b.unclassified == b.volume && b.validBooks + b.invalidBooks == b.packets
  }

  ghost predicate BalancedMinute(rows: Minute) { forall sid :: sid in rows ==> Balanced(rows[sid]) }

  ghost predicate AllBalanced(s: State) {
    (forall m :: m in s.pending ==> BalancedMinute(s.pending[m])) &&
    (forall i :: 0 <= i < |s.flushed| ==> BalancedMinute(s.flushed[i].rows))
  }

  lemma AccountBalanced(b: Bucket, last: Last, p: Packet)
    requires Balanced(b)
    ensures Balanced(Account(b, last, p))
  {
    BookBalanced(b.(packets := b.packets + 1), last, p);
    TradeBalanced(AccountBook(b.(packets := b.packets + 1), last, p), last, p);
    hide AccountBook, AccountTrade;
  }

  lemma BookBalanced(b: Bucket, last: Last, p: Packet)
    ensures var a := AccountBook(b, last, p);
            a.validBooks + a.invalidBooks == b.validBooks + b.invalidBooks + 1 && a.packets == b.packets &&
            a.buy == b.buy && a.sell == b.sell && a.unclassified == b.unclassified && a.volume == b.volume
  {
  }

  lemma TradeBalanced(b: Bucket, last: Last, p: Packet)
    ensures var a := AccountTrade(b, last, p);
            a.validBooks == b.validBooks && a.invalidBooks == b.invalidBooks && a.packets == b.packets &&
            (a.buy + a.sell + a.unclassified) - (b.buy + b.sell + b.unclassified) == a.volume - b.volume &&
            a.volume - b.volume ==
            if last.volume.None? || p.volume <= last.volume.value then 0 else p.volume - last.volume.value
  {
  }

  /** A packet adds to its bucket's volume by how far it raises the cumulative one. */
  lemma AccountVolume(b: Bucket, last: Last, p: Packet)
    ensures Account(b, last, p).volume - b.volume ==
            if last.volume.None? || p.volume <= last.volume.value then 0 else p.volume - last.volume.value
  {
    BookBalanced(b.(packets := b.packets + 1), last, p);
    TradeBalanced(AccountBook(b.(packets := b.packets + 1), last, p), last, p);
    hide AccountBook, AccountTrade;
  }

  lemma ObserveBalanced(s: State, p: Packet)
    requires AllBalanced(s)
    ensures AllBalanced(Observe(s, p))
  {
    hide Account, Balanced, Carry;
    var rows, last := GetMinute(s.pending, p.Minute()), GetLast(s.last, p.sid);
    EmptyIsBalanced();
    var b := Account(GetBucket(rows, p.sid), last, p);
    AccountBalanced(GetBucket(rows, p.sid), last, p);
    assert BalancedMinute(rows[p.sid := b]);
  }

  lemma EmptyIsBalanced()
    ensures Balanced(Empty)
  {
  }

  lemma {:induction false} FlushBalanced(s: State, minutes: seq<int>, now: nat, disk: int -> Disk)
    requires AllBalanced(s)
    ensures AllBalanced(FlushMinutes(s, minutes, now, disk))
    decreases |minutes|
  {
    if minutes != [] {
      var m := minutes[0];
      var s' := State(s.pending - {m}, s.last, s.flushed + [Flushed(m, GetMinute(s.pending, m), FateOf(m, now, disk))]);
      FlushBalanced(s', minutes[1..], now, disk);
    }
  }

  /** In every bucket, pending or flushed, at every moment: volume and packets are fully accounted for. */
  lemma {:induction false} BucketsStayBalanced(s: State, steps: seq<Step>)
    requires AllBalanced(s)
    ensures AllBalanced(RunFrom(s, steps))
  {
    if steps != [] {
      var before := RunFrom(s, steps[..|steps| - 1]);
      BucketsStayBalanced(s, steps[..|steps| - 1]);
      match steps[|steps| - 1]
      case Packet_(p) =>
        ObserveBalanced(before, p);
      case Flush_(now, disk) =>
        FlushBalanced(before, SortedKeys(set m | m in before.pending && Ready(m, now)), now, disk);
    }
  }

  // ---- Volume over a whole history ----

  /** The first and the highest of the non-negative cumulative volumes a stock has reported. */
  function VolumeSpan(steps: seq<Step>, sid: string): Option<(int, int)> {
    if steps == [] then None
    else
      var before := VolumeSpan(steps[..|steps| - 1], sid);
      match steps[|steps| - 1]
      case Flush_(_, _) => before
      case Packet_(p) =>
        if p.sid != sid || p.volume < 0 then before
        else if before.None? then Some((p.volume, p.volume))
        else Some((before.value.0, MaxInt(before.value.1, p.volume)))
  }

  lemma {:induction false} SpanRises(steps: seq<Step>, sid: string)
    ensures VolumeSpan(steps, sid).Some? ==> 0 <= VolumeSpan(steps, sid).value.0 <= VolumeSpan(steps, sid).value.1
  {
    if steps != [] { SpanRises(steps[..|steps| - 1], sid); }
  }

  /**
   * A stock's bucket volumes, over all minutes ever opened, add up to its highest cumulative
   * volume minus its first, wherever the minute boundaries and flushes fall.
   */
  lemma {:induction false} VolumeConserved(steps: seq<Step>, sid: string)
    ensures var s, span := RunFrom(Start, steps), VolumeSpan(steps, sid);
            Total(s, sid, (b: Bucket) => b.volume) == (if span.None? then 0 else span.value.1 - span.value.0) &&
            GetLast(s.last, sid).volume == (if span.None? then None else Some(span.value.1))
  {
    var f := (b: Bucket) => b.volume;
    if steps == [] {
      assert Total(Start, sid, f) == 0;
    } else {
      var init := steps[..|steps| - 1];
      var before := RunFrom(Start, init);
      VolumeConserved(init, sid);
      SpanRises(init, sid);
      match steps[|steps| - 1]
      case Packet_(p) =>
        ObserveTotal(before, p, sid, f);
        var b := GetBucket(GetMinute(before.pending, p.Minute()), p.sid);
        AccountVolume(b, GetLast(before.last, sid), p);
        hide Account, Total;
      case Flush_(now, disk) =>
        FlushMinutesTotal(before, SortedKeys(set m | m in before.pending && Ready(m, now)), now, disk, sid, f);
    }
  }

  // ---- Quantities while prices stand still ----

  /** Every valid book of the stock in these steps has the given best prices. */
  ghost predicate PricesHold(steps: seq<Step>, sid: string, bp: real, ap: real) {
    forall i :: 0 <= i < |steps| ==>
      match steps[i]
      case Flush_(_, _) => true
      case Packet_(p) => p.sid == sid && p.ValidBook() ==> p.bp == bp && p.ap == ap
  }

  ghost predicate Telescopes(s: State, s': State, sid: string, a: Quotes, b: Quotes) {
    b.bp == a.bp && b.ap == a.ap &&
    Total(s', sid, NetBid) - Total(s, sid, NetBid) == b.bq - a.bq &&
    Total(s', sid, NetAsk) - Total(s, sid, NetAsk) == b.aq - a.aq &&
    Total(s', sid, Imbalance) - Total(s, sid, Imbalance) == (b.bq - a.bq) - (b.aq - a.aq)
  }

  function NetBid(b: Bucket): int { b.bidReplenish - b.bidDepletion }

  function NetAsk(b: Bucket): int { b.askReplenish - b.askDepletion }

  function Imbalance(b: Bucket): int { b.ofi }

  lemma AccountNets(b: Bucket, last: Last, p: Packet)
    requires last.book.Some?
    requires p.ValidBook() ==> p.bp == last.book.value.bp && p.ap == last.book.value.ap
    ensures var l, b' := last.book.value, Account(b, last, p);
            if p.ValidBook()
            then NetBid(b') - NetBid(b) == p.bq - l.bq && NetAsk(b') - NetAsk(b) == p.aq - l.aq &&
                 Imbalance(b') - Imbalance(b) == (p.bq - l.bq) - (p.aq - l.aq)
            else NetBid(b') == NetBid(b) && NetAsk(b') == NetAsk(b) && Imbalance(b') == Imbalance(b)
  {
  }

  lemma PacketTelescopes(s: State, p: Packet, sid: string, l: Quotes)
    requires GetLast(s.last, sid).book == Some(l)
    requires p.sid == sid && p.ValidBook() ==> p.bp == l.bp && p.ap == l.ap
    ensures GetLast(Observe(s, p).last, sid).book.Some?
    ensures Telescopes(s, Observe(s, p), sid, l, GetLast(Observe(s, p).last, sid).book.value)
  {
    hide Account, Total, NetBid, NetAsk, Imbalance;
    assert NetBid(Empty) == NetAsk(Empty) == Imbalance(Empty) == 0 by { EmptyNets(); }
    ObserveTotal(s, p, sid, NetBid);
    ObserveTotal(s, p, sid, NetAsk);
    ObserveTotal(s, p, sid, Imbalance);
    if p.sid == sid {
      AccountNets(GetBucket(GetMinute(s.pending, p.Minute()), sid), GetLast(s.last, sid), p);
    }
  }

  lemma EmptyNets()
    ensures NetBid(Empty) == NetAsk(Empty) == Imbalance(Empty) == 0
  {
  }

  lemma FlushTelescopes(s: State, now: nat, disk: int -> Disk, sid: string, l: Quotes)
    requires GetLast(s.last, sid).book == Some(l)
    ensures Telescopes(s, Flush(s, now, disk), sid, l, l) && Flush(s, now, disk).last == s.last
  {
    hide Total, NetBid, NetAsk, Imbalance, FlushMinutes, Ready;
    assert NetBid(Empty) == NetAsk(Empty) == Imbalance(Empty) == 0 by { EmptyNets(); }
    var ready := SortedKeys(set m | m in s.pending && Ready(m, now));
    FlushMinutesTotal(s, ready, now, disk, sid, NetBid);
    FlushMinutesTotal(s, ready, now, disk, sid, NetAsk);
    FlushMinutesTotal(s, ready, now, disk, sid, Imbalance);
  }

  /**
   * While a stock's best prices stand still, replenishment less depletion is the net change of
   * each best quantity and order-flow imbalance is bid change less ask change, across all minutes.
   */
  lemma {:induction false} QuantitiesTelescope(s: State, steps: seq<Step>, sid: string, l: Quotes)
    requires GetLast(s.last, sid).book == Some(l) && PricesHold(steps, sid, l.bp, l.ap)
    ensures GetLast(RunFrom(s, steps).last, sid).book.Some?
    ensures Telescopes(s, RunFrom(s, steps), sid, l, GetLast(RunFrom(s, steps).last, sid).book.value)
  {
    if steps != [] {
      var init, step := steps[..|steps| - 1], steps[|steps| - 1];
      var before := RunFrom(s, init);
      assert forall i :: 0 <= i < |init| ==> init[i] == steps[i];
      QuantitiesTelescope(s, init, sid, l);
      var mid := GetLast(before.last, sid).book.value;
      match step
      case Packet_(p) => PacketTelescopes(before, p, sid, mid);
      case Flush_(now, disk) => FlushTelescopes(before, now, disk, sid, mid);
    }
  }

  // ---- The order minutes are flushed in ----

  function TimeOf(step: Step): nat { if step.Packet_? then step.packet.now else step.now }

  ghost predicate ClockRises(steps: seq<Step>) {
    forall i, j :: 0 <= i <= j < |steps| ==> TimeOf(steps[i]) <= TimeOf(steps[j])
  }

  /** Flushed minutes strictly rise, all of them before any pending minute and any minute still to come. */
  ghost predicate InSequence(s: State, now: nat) {
    (forall i, j :: 0 <= i < j < |s.flushed| ==> s.flushed[i].minute < s.flushed[j].minute) &&
    (forall i, m :: 0 <= i < |s.flushed| && m in s.pending ==> s.flushed[i].minute < m) &&
    (forall i :: 0 <= i < |s.flushed| ==> s.flushed[i].minute * 1000 + 60000 <= now)
  }

  lemma {:induction false} FlushInSequence(s: State, minutes: seq<int>, now: nat, disk: int -> Disk, at: nat)
    requires InSequence(s, at) && at <= now
    requires forall i, j :: 0 <= i < j < |minutes| ==> minutes[i] < minutes[j]
    requires forall i :: 0 <= i < |minutes| ==> minutes[i] in s.pending && Ready(minutes[i], now)
    requires forall m :: m in s.pending && m !in minutes ==> !Ready(m, now)
    ensures InSequence(FlushMinutes(s, minutes, now, disk), now)
    decreases |minutes|
  {
    if minutes != [] {
      var m := minutes[0];
      var s' := State(s.pending - {m}, s.last, s.flushed + [Flushed(m, GetMinute(s.pending, m), FateOf(m, now, disk))]);
      forall k | k in s'.pending ensures m < k {
        if k in minutes { var i :| 0 <= i < |minutes| && minutes[i] == k; }
      }
      assert forall k :: k in minutes <==> k == m || k in minutes[1..];
      FlushInSequence(s', minutes[1..], now, disk, now);
    }
  }

  /**
   * With a clock that never runs backwards, each minute is flushed at most once and minutes are
   * flushed in rising order, whatever the flush times: the stream's blocks are in order.
   */
  lemma {:induction false} MinutesFlushInOrder(steps: seq<Step>)
    requires ClockRises(steps)
    ensures InSequence(RunFrom(Start, steps), if steps == [] then 0 else TimeOf(steps[|steps| - 1]))
  {
    if steps != [] {
      var init, step := steps[..|steps| - 1], steps[|steps| - 1];
      var s, at := RunFrom(Start, init), if init == [] then 0 else TimeOf(init[|init| - 1]);
      assert forall i :: 0 <= i < |init| ==> init[i] == steps[i];
      MinutesFlushInOrder(init);
      assert at <= TimeOf(step);
      match step
      case Packet_(p) =>
      case Flush_(now, disk) =>
        var ready := set m | m in s.pending && Ready(m, now);
        SortedKeysExact(ready);
        var minutes := SortedKeys(ready);
        assert forall i :: 0 <= i < |minutes| ==> minutes[i] in minutes;
        FlushInSequence(s, minutes, now, disk, at);
    }
  }
}
