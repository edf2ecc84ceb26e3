/** The microstructure recorder: packets accounted into per-minute buckets, minutes flushed to the stream. */
module Recorder {
  import opened Basics
  import opened OrderedRows

  /** One Full packet as read: times in milliseconds, the best quotes, the last price and cumulative volume. */
  datatype Packet = Packet(sid: string, now: nat, bp: real, bq: int, ap: real, aq: int, ltp: real, volume: int) {
    predicate ValidBook() { bp > 0.0 && ap > 0.0 && ap > bp }
    function Minute(): nat { now / 60000 * 60 }
  }

  datatype Quotes = Quotes(bp: real, bq: int, ap: real, aq: int)

  /** What the packets of one stock that arrived within one minute add up to. */
  datatype Bucket = Bucket(
    packets: int, validBooks: int, invalidBooks: int, quoteChanges: int, tradePackets: int,
    volume: int, buy: int, sell: int, unclassified: int, ofi: int,
    bidDepletion: int, bidReplenish: int, bidUp: int, bidDown: int,
    askDepletion: int, askReplenish: int, askUp: int, askDown: int)

  const Empty := Bucket(0, 0, 0, 0, 0, 0, 0, 0, 0, 0, 0, 0, 0, 0, 0, 0, 0, 0)

  /** The previous packet's book and trade state of one stock, carried across minutes. */
  datatype Last = Last(book: Option<Quotes>, ltp: Option<real>, volume: Option<int>)

  const NoLast := Last(None, None, None)

  /** Quote changes, order-flow imbalance and best-quote movements between two valid books. */
  function AccountQuotes(b: Bucket, l: Quotes, p: Packet): Bucket {
    var changed := p.bp != l.bp || p.ap != l.ap || p.bq != l.bq || p.aq != l.aq;
    var bidDelta, askDelta := p.bq - l.bq, p.aq - l.aq;
    b.(quoteChanges := b.quoteChanges + (if changed then 1 else 0),
       ofi := b.ofi + (if p.bp >= l.bp then p.bq else 0) - (if p.bp <= l.bp then l.bq else 0)
                    - (if p.ap <= l.ap then p.aq else 0) + (if p.ap >= l.ap then l.aq else 0),
       bidDepletion := b.bidDepletion - (if p.bp == l.bp && bidDelta < 0 then bidDelta else 0),
       bidReplenish := b.bidReplenish + (if p.bp == l.bp && bidDelta >= 0 then bidDelta else 0),
       bidUp := b.bidUp + (if p.bp > l.bp then 1 else 0),
       bidDown := b.bidDown + (if p.bp < l.bp then 1 else 0),
       askDepletion := b.askDepletion - (if p.ap == l.ap && askDelta < 0 then askDelta else 0),
       askReplenish := b.askReplenish + (if p.ap == l.ap && askDelta >= 0 then askDelta else 0),
       askUp := b.askUp + (if p.ap > l.ap then 1 else 0),
       askDown := b.askDown + (if p.ap < l.ap then 1 else 0))
  }

  function AccountBook(b: Bucket, last: Last, p: Packet): Bucket {
    if !p.ValidBook() then b.(invalidBooks := b.invalidBooks + 1)
    else
      var counted := b.(validBooks := b.validBooks + 1);
      if last.book.None? then counted else AccountQuotes(counted, last.book.value, p)
  }

  /** Traded volume, put to the side its price was nearer to. */
  function AccountTrade(b: Bucket, last: Last, p: Packet): Bucket {
    if last.volume.None? || p.volume <= last.volume.value then b
    else
      var traded := p.volume - last.volume.value;
      var reference := if last.book.Some? then Some((last.book.value.bp + last.book.value.ap) / 2.0) else None;
      var counted := b.(tradePackets := b.tradePackets + 1, volume := b.volume + traded);
      if reference.Some? && p.ltp > reference.value then counted.(buy := b.buy + traded)
      else if reference.Some? && p.ltp < reference.value then counted.(sell := b.sell + traded)
      else if last.ltp.Some? && p.ltp > last.ltp.value then counted.(buy := b.buy + traded)
      else if last.ltp.Some? && p.ltp < last.ltp.value then counted.(sell := b.sell + traded)
      else counted.(unclassified := b.unclassified + traded)
  }

  function Account(b: Bucket, last: Last, p: Packet): Bucket {
    AccountTrade(AccountBook(b.(packets := b.packets + 1), last, p), last, p)
  }

  function Carry(last: Last, p: Packet): Last {
    Last(if p.ValidBook() then Some(Quotes(p.bp, p.bq, p.ap, p.aq)) else last.book,
         if p.ltp > 0.0 then Some(p.ltp) else last.ltp,
         if p.volume >= (if last.volume.Some? then last.volume.value else 0) then Some(p.volume) else last.volume)
  }

  type Minute = map<string, Bucket>

  /** What becomes of a minute that is flushed: written, dropped unwritten, or lost to a failing write. */
  datatype Fate = Written | Dropped | Failed

  datatype Flushed = Flushed(minute: int, rows: Minute, fate: Fate)

  datatype State = State(pending: map<int, Minute>, last: map<string, Last>, flushed: seq<Flushed>)

  const Start := State(map[], map[], [])

  function GetBucket(rows: Minute, sid: string): Bucket { if sid in rows then rows[sid] else Empty }

  function GetMinute(pending: map<int, Minute>, minute: int): Minute {
    if minute in pending then pending[minute] else map[]
  }

  function GetLast(last: map<string, Last>, sid: string): Last { if sid in last then last[sid] else NoLast }

  function Observe(s: State, p: Packet): State {
    var rows, last := GetMinute(s.pending, p.Minute()), GetLast(s.last, p.sid);
    State(s.pending[p.Minute() := rows[p.sid := Account(GetBucket(rows, p.sid), last, p)]],
          s.last[p.sid := Carry(last, p)], s.flushed)
  }

  /** A minute closed long enough ago: its end plus three seconds of grace. */
  predicate Ready(minute: int, now: nat) { minute * 1000 + 63000 <= now }

  /** The disk when a minute is to be written: short of space, failing, or working. */
  datatype Disk = Short | Failing | Working

  /** Minutes more than eleven minutes old are dropped, as are those there is no space for. */
  function FateOf(minute: int, now: nat, disk: int -> Disk): Fate {
    if minute * 1000 < now - 660000 || disk(minute) == Short then Dropped
    else if disk(minute) == Failing then Failed
    else Written
  }

  /** How many minutes met one fate. */
  function CountOf(flushed: seq<Flushed>, fate: Fate): nat {
    if flushed == [] then 0
    else CountOf(flushed[..|flushed| - 1], fate) + if flushed[|flushed| - 1].fate == fate then 1 else 0
  }

  function FlushMinutes(s: State, minutes: seq<int>, now: nat, disk: int -> Disk): State
    decreases |minutes|
  {
    if minutes == [] then s
    else
      var m := minutes[0];
      var entry := Flushed(m, GetMinute(s.pending, m), FateOf(m, now, disk));
      FlushMinutes(State(s.pending - {m}, s.last, s.flushed + [entry]), minutes[1..], now, disk)
  }

  ghost function Flush(s: State, now: nat, disk: int -> Disk): State {
    FlushMinutes(s, SortedKeys(set m | m in s.pending && Ready(m, now)), now, disk)
  }

  lemma FlushFirst(s: State, minutes: seq<int>, now: nat, disk: int -> Disk)
    requires minutes != [] && minutes[0] in s.pending
    ensures var m := minutes[0];
            FlushMinutes(s, minutes, now, disk) ==
            FlushMinutes(State(s.pending - {m}, s.last, s.flushed + [Flushed(m, s.pending[m], FateOf(m, now, disk))]),
                         minutes[1..], now, disk)
  {
  }

  lemma NothingToFlush(s: State, now: nat, disk: int -> Disk)
    ensures FlushMinutes(s, SortedKeys({}), now, disk) == s
  {
  }

  /** One packet in its bucket: packet and book counts, quote changes, then the trade. */
  method AccountPacket(bucket: Bucket, l: Last, p: Packet) returns (b: Bucket)
    ensures b == Account(bucket, l, p)
  {
    hide AccountQuotes, AccountTrade;
    b := bucket.(packets := bucket.packets + 1);
    if p.ValidBook() {
      b := b.(validBooks := b.validBooks + 1);
      if l.book.Some? {
        b := AccountQuotes(b, l.book.value, p);
      }
    } else {
      b := b.(invalidBooks := b.invalidBooks + 1);
    }
    b := AccountTrade(b, l, p);
  }

  /** What the next packet of the stock is compared with. */
  method CarryOver(last: Last, p: Packet) returns (l: Last)
    ensures l == Carry(last, p)
  {
    l := last;
    if p.ValidBook() {
      l := l.(book := Some(Quotes(p.bp, p.bq, p.ap, p.aq)));
    }
    if p.ltp > 0.0 {
      l := l.(ltp := Some(p.ltp));
    }
    if p.volume >= (if l.volume.Some? then l.volume.value else 0) {
      l := l.(volume := Some(p.volume));
    }
  }

  class MicrostructureRecorder {
    var pending: map<int, Minute>
    var last: map<string, Last>
    ghost var flushed: seq<Flushed>
    var minutesWritten: nat
    var droppedMinutes: nat
    var writeErrors: nat

    constructor ()
      ensures Current() == Start && Counted()
    {
      pending, last, flushed := map[], map[], [];
      minutesWritten, droppedMinutes, writeErrors := 0, 0, 0;
    }

    ghost function Current(): State
      reads this
    {
      State(pending, last, flushed)
    }

    /** The statistics count every minute ever flushed, by its fate. */
    ghost predicate Counted()
      reads this
    {
      minutesWritten == CountOf(flushed, Written) && droppedMinutes == CountOf(flushed, Dropped) &&
      writeErrors == CountOf(flushed, Failed)
    }

    /** Account one packet in the bucket of the minute it was received in. */
    method ObservePacket(p: Packet)
      modifies this`pending, this`last
      ensures Current() == Observe(old(Current()), p)
    {
      hide Account, Carry;
      var minute := p.Minute();
      if minute !in pending {
        pending := pending[minute := map[]];
      }
      var b := if p.sid in pending[minute] then pending[minute][p.sid] else Empty;
      var l := if p.sid in last then last[p.sid] else NoLast;
      b := AccountPacket(b, l, p);
      l := CarryOver(l, p);
      pending := pending[minute := pending[minute][p.sid := b]];
      last := last[p.sid := l];
    }

    /** Write or drop every minute that is ready, oldest first; returns how many were written. */
    method FlushClosed(now: nat, disk: int -> Disk) returns (written: nat)
      requires Counted()
      modifies this
      ensures Current() == Flush(old(Current()), now, disk) && Counted()
      ensures written == minutesWritten - old(minutesWritten)
    {
      hide FlushMinutes, SortedKeys, Ready, CountOf, FateOf;
      written := 0;
      var ready := set m | m in pending && Ready(m, now);
      ghost var target := Flush(Current(), now, disk);
      while ready != {}
        invariant forall m :: m in ready ==> m in pending
        invariant FlushMinutes(Current(), SortedKeys(ready), now, disk) == target
        invariant Counted() && written == minutesWritten - old(minutesWritten)
        decreases |ready|
      {
        LeastExists(ready);
        var m :| m in ready && forall k :: k in ready ==> m <= k;
        SortedHead(ready, m);
        FlushFirst(Current(), SortedKeys(ready), now, disk);
        var fate := FateOf(m, now, disk);
        ghost var entry := Flushed(m, pending[m], fate);
        CountMore(flushed, entry);
        flushed := flushed + [entry];
        pending := pending - {m};
        ready := ready - {m};
        match fate
        case Written =>
          minutesWritten := minutesWritten + 1;
          written := written + 1;
        case Dropped => droppedMinutes := droppedMinutes + 1;
        case Failed => writeErrors := writeErrors + 1;
      }
      NothingToFlush(Current(), now, disk);
    }
  }

  lemma CountMore(flushed: seq<Flushed>, entry: Flushed)
    ensures forall fate :: CountOf(flushed + [entry], fate) ==
                           CountOf(flushed, fate) + if entry.fate == fate then 1 else 0
  {
    assert (flushed + [entry])[..|flushed|] == flushed;
  }
}
