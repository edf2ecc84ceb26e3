/** What packets add up to. */
module RecorderSums {
  // Every figure of a bucket, over whole histories of packets and flushes, as a sum over the packets of one
  // stock that were received within one minute.

  import opened Basics
  import opened OrderedRows
  import opened Recorder
  import opened RecorderLaws

  // ---- A stock's packets ----

  /** The packets of one stock in the order they were received. */
  function PacketsOf(steps: seq<Step>, sid: string): seq<Packet> {
    if steps == [] then []
    else
      var before, step := PacketsOf(steps[..|steps| - 1], sid), steps[|steps| - 1];
      if step.Packet_? && step.packet.sid == sid then before + [step.packet] else before
  }

  /** Both best prices are positive and the ask is above the bid. */
  predicate Quoted(p: Packet) { 0.0 < p.bp < p.ap }

  /** The latest packet with such a book. */
  function LatestBook(ps: seq<Packet>): (r: Option<Packet>)
    ensures r.Some? ==> Quoted(r.value)
  {
    if ps == [] then None
    else if Quoted(ps[|ps| - 1]) then Some(ps[|ps| - 1])
    else LatestBook(ps[..|ps| - 1])
  }

  /** The latest positive price. */
  function LatestPrice(ps: seq<Packet>): Option<real> {
    if ps == [] then None
    else if ps[|ps| - 1].ltp > 0.0 then Some(ps[|ps| - 1].ltp)
    else LatestPrice(ps[..|ps| - 1])
  }

  /** The highest cumulative volume that is not negative. */
  function Highest(ps: seq<Packet>): (r: Option<int>)
    ensures r.Some? ==> r.value >= 0
  {
    if ps == [] then None
    else
      var before, v := Highest(ps[..|ps| - 1]), ps[|ps| - 1].volume;
      if v < 0 then before else if before.None? then Some(v) else Some(MaxInt(before.value, v))
  }

  /** How far a packet raises the cumulative volume; the first one only sets it. */
  function Rise(ps: seq<Packet>, p: Packet): nat {
    if Highest(ps).None? then 0 else MaxInt(0, p.volume - Highest(ps).value)
  }

  datatype Side = Buyer | Seller | Neither

  function Towards(price: real, level: real): Side {
    if price > level then Buyer else if price < level then Seller else Neither
  }

  /** The side of a trade: away from the middle of the latest book, or, there or without one, from the latest price. */
  function SideOf(ps: seq<Packet>, p: Packet): Side {
    var book, price := LatestBook(ps), LatestPrice(ps);
    var byBook := if book.None? then Neither else Towards(2.0 * p.ltp, book.value.bp + book.value.ap);
    if byBook != Neither then byBook else if price.None? then Neither else Towards(p.ltp, price.value)
  }

  // ---- What one packet adds ----

  /** The figures of a bucket. */
  datatype Figure =
    | Packets | ValidBooks | InvalidBooks | QuoteChanges | TradePackets
    | Volume | Buy | Sell | Unclassified | OrderFlow
    | BidDepletion | BidReplenish | BidUp | BidDown
    | AskDepletion | AskReplenish | AskUp | AskDown

  function Value(b: Bucket, figure: Figure): int {
    match figure
    case Packets => b.packets
    case ValidBooks => b.validBooks
    case InvalidBooks => b.invalidBooks
    case QuoteChanges => b.quoteChanges
    case TradePackets => b.tradePackets
    case Volume => b.volume
    case Buy => b.buy
    case Sell => b.sell
    case Unclassified => b.unclassified
    case OrderFlow => b.ofi
    case BidDepletion => b.bidDepletion
    case BidReplenish => b.bidReplenish
    case BidUp => b.bidUp
    case BidDown => b.bidDown
    case AskDepletion => b.askDepletion
    case AskReplenish => b.askReplenish
    case AskUp => b.askUp
    case AskDown => b.askDown
  }

  function If(c: bool): nat { if c then 1 else 0 }

  /** The change of a best quantity: all that is new at a better price, all that was there at a worse one. */
  function Flow(better: bool, same: bool, quantity: int, before: int): int {
    if better then quantity else if same then quantity - before else -before
  }

  /** What a book adds behind an earlier one. */
  function BookGain(l: Packet, p: Packet, figure: Figure): int {
    var sameBid, sameAsk := p.bp == l.bp, p.ap == l.ap;
    match figure
    case QuoteChanges => If((p.bp, p.bq, p.ap, p.aq) != (l.bp, l.bq, l.ap, l.aq))
    case OrderFlow => Flow(p.bp > l.bp, sameBid, p.bq, l.bq) - Flow(p.ap < l.ap, sameAsk, p.aq, l.aq)
    case BidDepletion => if sameBid then MaxInt(0, l.bq - p.bq) else 0
    case BidReplenish => if sameBid then MaxInt(0, p.bq - l.bq) else 0
    case BidUp => If(p.bp > l.bp)
    case BidDown => If(p.bp < l.bp)
    case AskDepletion => if sameAsk then MaxInt(0, l.aq - p.aq) else 0
    case AskReplenish => if sameAsk then MaxInt(0, p.aq - l.aq) else 0
    case AskUp => If(p.ap > l.ap)
    case AskDown => If(p.ap < l.ap)
    case _ => 0
  }

  /** What a packet adds to each figure, given the packets before it. */
  function Gain(ps: seq<Packet>, p: Packet, figure: Figure): int {
    match figure
    case Packets => 1
    case ValidBooks => If(Quoted(p))
    case InvalidBooks => If(!Quoted(p))
    case TradePackets => If(Rise(ps, p) > 0)
    case Volume => Rise(ps, p)
    case Buy => if SideOf(ps, p) == Buyer then Rise(ps, p) else 0
    case Sell => if SideOf(ps, p) == Seller then Rise(ps, p) else 0
    case Unclassified => if SideOf(ps, p) == Neither then Rise(ps, p) else 0
    case _ => if Quoted(p) && LatestBook(ps).Some? then BookGain(LatestBook(ps).value, p, figure) else 0
  }

  /** The packet was received within the sixty seconds from `minute` on. */
  predicate Within(p: Packet, minute: int) { minute % 60 == 0 && 1000 * minute <= p.now < 1000 * (minute + 60) }

  function SumOf(ps: seq<Packet>, minute: int, figure: Figure): int {
    if ps == [] then 0
    else
      var init, p := ps[..|ps| - 1], ps[|ps| - 1];
      SumOf(init, minute, figure) + if Within(p, minute) then Gain(init, p, figure) else 0
  }

  // ---- What the recorder has ----

  /** A figure of one stock and minute over everything flushed. */
  function FlushedSum(flushed: seq<Flushed>, minute: int, sid: string, figure: Figure): int {
    if flushed == [] then 0
    else
      var entry := flushed[|flushed| - 1];
      FlushedSum(flushed[..|flushed| - 1], minute, sid, figure) +
      if entry.minute == minute then Value(GetBucket(entry.rows, sid), figure) else 0
  }

  /** A figure of one stock and minute, flushed or still pending. */
  function Recorded(s: State, minute: int, sid: string, figure: Figure): int {
    FlushedSum(s.flushed, minute, sid, figure) + Value(GetBucket(GetMinute(s.pending, minute), sid), figure)
  }

  /** What is carried from packet to packet is what the packets so far say. */
  ghost predicate Carried(ps: seq<Packet>, last: Last) {
    last.volume == Highest(ps) && last.ltp == LatestPrice(ps) &&
    match LatestBook(ps)
    case None => last.book == None
    case Some(p) => last.book == Some(Quotes(p.bp, p.bq, p.ap, p.aq))
  }

  lemma CarryOn(ps: seq<Packet>, last: Last, p: Packet)
    requires Carried(ps, last)
    ensures Carried(ps + [p], Carry(last, p))
  {
    assert (ps + [p])[..|ps|] == ps;
  }

  /** The figures a trade can change. */
  predicate OfTrade(figure: Figure) {
    figure.TradePackets? || figure.Volume? || figure.Buy? || figure.Sell? || figure.Unclassified?
  }

  lemma TradeGain(b: Bucket, last: Last, ps: seq<Packet>, p: Packet, figure: Figure)
    requires Carried(ps, last)
    ensures Value(AccountTrade(b, last, p), figure) - Value(b, figure) ==
            if OfTrade(figure) then Gain(ps, p, figure) else 0
  {
    hide LatestBook, LatestPrice, Highest;
  }

  lemma QuoteGain(b: Bucket, l: Packet, p: Packet, figure: Figure)
    ensures Value(AccountQuotes(b, Quotes(l.bp, l.bq, l.ap, l.aq), p), figure) - Value(b, figure) ==
            BookGain(l, p, figure)
  {
  }

  lemma BookCount(b: Bucket, last: Last, ps: seq<Packet>, p: Packet, figure: Figure)
    requires Carried(ps, last)
    ensures Value(AccountBook(b, last, p), figure) - Value(b, figure) ==
            if figure.Packets? || OfTrade(figure) then 0 else Gain(ps, p, figure)
  {
    if LatestBook(ps).Some? { QuoteGain(b.(validBooks := b.validBooks + 1), LatestBook(ps).value, p, figure); }
    hide AccountQuotes, LatestBook, LatestPrice, Highest, Rise, SideOf;
  }

  function CountOne(b: Bucket): Bucket { b.(packets := b.packets + 1) }

  lemma AccountSteps(b: Bucket, last: Last, p: Packet)
    ensures Account(b, last, p) == AccountTrade(AccountBook(CountOne(b), last, p), last, p)
  {
  }

  lemma AccountGain(b: Bucket, last: Last, ps: seq<Packet>, p: Packet, figure: Figure)
    requires Carried(ps, last)
    ensures Value(Account(b, last, p), figure) - Value(b, figure) == Gain(ps, p, figure)
  {
    hide *;
    AccountSteps(b, last, p);
    PacketCount(b, ps, p, figure);
    BookCount(CountOne(b), last, ps, p, figure);
    TradeGain(AccountBook(CountOne(b), last, p), last, ps, p, figure);
  }

  lemma PacketCount(b: Bucket, ps: seq<Packet>, p: Packet, figure: Figure)
    ensures Value(CountOne(b), figure) - Value(b, figure) == if figure.Packets? then 1 else 0
    ensures figure.Packets? ==> Gain(ps, p, figure) == 1 && !OfTrade(figure)
  {
  }

  lemma WithinIsMinute(p: Packet, minute: int)
    ensures Within(p, minute) <==> minute == p.Minute()
  {
  }

  lemma ObserveRecords(s: State, ps: seq<Packet>, p: Packet, minute: int, figure: Figure)
    requires Carried(ps, GetLast(s.last, p.sid))
    ensures Recorded(Observe(s, p), minute, p.sid, figure) ==
            Recorded(s, minute, p.sid, figure) + if Within(p, minute) then Gain(ps, p, figure) else 0
    ensures Carried(ps + [p], GetLast(Observe(s, p).last, p.sid))
  {
    WithinIsMinute(p, minute);
    AccountGain(GetBucket(GetMinute(s.pending, p.Minute()), p.sid), GetLast(s.last, p.sid), ps, p, figure);
    CarryOn(ps, GetLast(s.last, p.sid), p);
    hide Account, Carry, Carried, Gain, Value, Within;
  }

  lemma ObserveOther(s: State, p: Packet, minute: int, sid: string, figure: Figure)
    requires p.sid != sid
    ensures Recorded(Observe(s, p), minute, sid, figure) == Recorded(s, minute, sid, figure)
    ensures GetLast(Observe(s, p).last, sid) == GetLast(s.last, sid)
  {
    hide Account, Carry, Value;
  }

  /** Flushing moves a minute from the pending ones to the flushed ones. */
  lemma {:induction false} FlushRecords(s: State, minutes: seq<int>, now: nat, disk: int -> Disk, minute: int,
                                        sid: string, figure: Figure)
    ensures Recorded(FlushMinutes(s, minutes, now, disk), minute, sid, figure) == Recorded(s, minute, sid, figure)
    ensures FlushMinutes(s, minutes, now, disk).last == s.last
    decreases |minutes|
  {
    if minutes != [] {
      var m := minutes[0];
      var entry := Flushed(m, GetMinute(s.pending, m), FateOf(m, now, disk));
      var s' := State(s.pending - {m}, s.last, s.flushed + [entry]);
      assert s'.flushed[..|s.flushed|] == s.flushed;
      EmptyIsZero(figure);
      FlushRecords(s', minutes[1..], now, disk, minute, sid, figure);
      hide Value, FateOf;
    }
  }

  lemma EmptyIsZero(figure: Figure)
    ensures Value(Empty, figure) == 0
  {
  }

  /**
   * After every history, for each stock, minute and figure: what the recorder has flushed or still holds is
   * the sum of what the stock's packets of that minute add, each judged by the packets before it.
   */
  lemma {:induction false} FiguresAreSums(steps: seq<Step>, sid: string, minute: int, figure: Figure)
    ensures Recorded(RunFrom(Start, steps), minute, sid, figure) == SumOf(PacketsOf(steps, sid), minute, figure)
    ensures Carried(PacketsOf(steps, sid), GetLast(RunFrom(Start, steps).last, sid))
  {
    if steps == [] {
      EmptyIsZero(figure);
    } else {
      var init, step := steps[..|steps| - 1], steps[|steps| - 1];
      var before, ps := RunFrom(Start, init), PacketsOf(init, sid);
      FiguresAreSums(init, sid, minute, figure);
      hide Observe, Recorded, Carried, Gain, Within, FlushMinutes;
      match step
      case Packet_(p) =>
        if p.sid == sid {
          ObserveRecords(before, ps, p, minute, figure);
          assert (ps + [p])[..|ps|] == ps;
        } else {
          ObserveOther(before, p, minute, sid, figure);
        }
      case Flush_(now, disk) =>
        FlushRecords(before, SortedKeys(set m | m in before.pending && Ready(m, now)), now, disk, minute, sid, figure);
    }
  }

  // ---- Buyers and sellers ----

  /** The upward volume moves of the packets of a minute that were put to a side. */
  function Moves(ps: seq<Packet>, minute: int, side: Side): int {
    if ps == [] then 0
    else
      var init, p := ps[..|ps| - 1], ps[|ps| - 1];
      Moves(init, minute, side) + if Within(p, minute) && SideOf(init, p) == side then Rise(init, p) else 0
  }

  lemma {:induction false} MovesAreSums(ps: seq<Packet>, minute: int)
    ensures SumOf(ps, minute, Buy) == Moves(ps, minute, Buyer)
    ensures SumOf(ps, minute, Sell) == Moves(ps, minute, Seller)
    ensures SumOf(ps, minute, Unclassified) == Moves(ps, minute, Neither)
  {
    if ps != [] { MovesAreSums(ps[..|ps| - 1], minute); }
  }

  /** In particular bought, sold and unclassified volume of a minute are the moves put to each side. */
  lemma BoughtAndSold(steps: seq<Step>, sid: string, minute: int)
    ensures var s, ps := RunFrom(Start, steps), PacketsOf(steps, sid);
            Recorded(s, minute, sid, Buy) == Moves(ps, minute, Buyer) &&
            Recorded(s, minute, sid, Sell) == Moves(ps, minute, Seller) &&
            Recorded(s, minute, sid, Unclassified) == Moves(ps, minute, Neither)
  {
    FiguresAreSums(steps, sid, minute, Buy);
    FiguresAreSums(steps, sid, minute, Sell);
    FiguresAreSums(steps, sid, minute, Unclassified);
    MovesAreSums(PacketsOf(steps, sid), minute);
    hide Recorded, Moves, SumOf;
  }
}
