/**
 * The 20-level depth feed: parsing a byte message into its frames, and the frames as they are laid out
 * on the wire.
 */
module DepthFrames {

  type byte = x: int | 0 <= x < 256

  const HEADER_BYTES := 12
  const LEVEL_BYTES := 16
  const DEPTH_LEVELS := 20
  const SIDE_PACKET_BYTES := HEADER_BYTES + DEPTH_LEVELS * LEVEL_BYTES
  const BID_CODE: byte := 41
  const ASK_CODE: byte := 51

  /** A price is kept as the eight bytes of its double. */
  datatype Level = Level(level: int, price: seq<byte>, quantity: int, orders: int)

  datatype Side = Bid | Ask

  datatype Message = Message(securityId: int, side: Side, levels: seq<Level>)

  // ---- Little-endian numbers ----

  function U16(data: seq<byte>, at: nat): nat
    requires at + 2 <= |data|
  {
    data[at] as int + 256 * data[at + 1] as int
  }

  function U32(data: seq<byte>, at: nat): nat
    requires at + 4 <= |data|
  {
    data[at] as int + 256 * data[at + 1] as int + 65536 * data[at + 2] as int + 16777216 * data[at + 3] as int
  }

  function I32(data: seq<byte>, at: nat): int
    requires at + 4 <= |data|
  {
    var n := U32(data, at);
    if n < 0x8000_0000 then n else n - 0x1_0000_0000
  }

  function Put16(n: nat): seq<byte>
    requires n < 65536
  {
    [n % 256, n / 256]
  }

  function Put32(n: nat): seq<byte>
    requires n < 0x1_0000_0000
  {
    [n % 256, n / 256 % 256, n / 65536 % 256, n / 16777216]
  }

  function PutI32(n: int): seq<byte>
    requires -0x8000_0000 <= n < 0x8000_0000
  {
    Put32(if n < 0 then n + 0x1_0000_0000 else n)
  }

  /** Four base-256 digits make up their number again. */
  lemma FourDigits(n: nat)
    requires n < 0x1_0000_0000
    ensures n % 256 + n / 256 % 256 * 256 + n / 65536 % 256 * 65536 + n / 16777216 * 16777216 == n
  {
    var a := n / 256;
    var b := a / 256;
    assert n / 65536 == b && n / 16777216 == b / 256;
  }

  lemma Got32(n: nat, data: seq<byte>, at: nat)
    requires n < 0x1_0000_0000 && at + 4 <= |data| && data[at..at + 4] == Put32(n)
    ensures U32(data, at) == n
  {
    var four := data[at..at + 4];
    assert data[at] == four[0] && data[at + 1] == four[1] && data[at + 2] == four[2] && data[at + 3] == four[3];
    FourDigits(n);
  }

  // ---- Parsing ----

  /** The levels of a side packet whose levels start at `base`, from level index `from` on. */
  function Levels(data: seq<byte>, base: nat, from: nat): seq<Level>
    requires base + DEPTH_LEVELS * LEVEL_BYTES <= |data| && from <= DEPTH_LEVELS
    decreases DEPTH_LEVELS - from
  {
    if from == DEPTH_LEVELS then []
    else
      var o := base + from * LEVEL_BYTES;
      [Level(from + 1, data[o..o + 8], U32(data, o + 8), U32(data, o + 12))] + Levels(data, base, from + 1)
  }

  /** The message of one whole frame, if it is a bid or ask packet of full size. */
  function FrameMessage(frame: seq<byte>): seq<Message>
    requires |frame| >= HEADER_BYTES
  {
    if (frame[2] == BID_CODE || frame[2] == ASK_CODE) && |frame| >= SIDE_PACKET_BYTES then
      [Message(I32(frame, 4), if frame[2] == BID_CODE then Bid else Ask, Levels(frame, HEADER_BYTES, 0))]
    else []
  }

  /** A frame as its sender meant it: its first two bytes give its length. */
  predicate Whole(frame: seq<byte>) { |frame| >= HEADER_BYTES && U16(frame, 0) == |frame| }

  /** All messages of the whole frames at the front of the data. */
  function Parse(data: seq<byte>): seq<Message>
    decreases |data|
  {
    if |data| < HEADER_BYTES then []
    else
      var n := U16(data, 0);
      if n < HEADER_BYTES || n > |data| then [] else FrameMessage(data[..n]) + Parse(data[n..])
  }

  lemma NumbersInPlace(data: seq<byte>, offset: nat, n: nat, o: nat)
    requires offset + n <= |data| && o + 4 <= n
    ensures U32(data[offset..offset + n], o) == U32(data, offset + o)
  {
    var frame := data[offset..offset + n];
    assert frame[o] == data[offset + o] && frame[o + 1] == data[offset + o + 1];
    assert frame[o + 2] == data[offset + o + 2] && frame[o + 3] == data[offset + o + 3];
  }

  lemma SliceInPlace(data: seq<byte>, offset: nat, n: nat, a: nat, b: nat)
    requires offset + n <= |data| && a <= b <= n
    ensures data[offset..offset + n][a..b] == data[offset + a..offset + b]
  {
    var x, y := data[offset..offset + n][a..b], data[offset + a..offset + b];
    assert |x| == |y|;
    forall i | 0 <= i < |x| ensures x[i] == y[i] {
      assert x[i] == data[offset..offset + n][a + i] == data[offset + a + i];
    }
  }

  /** Reading levels in place is reading them from the frame cut out. */
  lemma {:induction false} LevelsInPlace(data: seq<byte>, offset: nat, n: nat, from: nat)
    requires offset + n <= |data| && SIDE_PACKET_BYTES <= n && from <= DEPTH_LEVELS
    ensures Levels(data, offset + HEADER_BYTES, from) == Levels(data[offset..offset + n], HEADER_BYTES, from)
    decreases DEPTH_LEVELS - from
  {
    hide U32;
    if from < DEPTH_LEVELS {
      LevelsInPlace(data, offset, n, from + 1);
      var frame, o := data[offset..offset + n], HEADER_BYTES + from * LEVEL_BYTES;
      SliceInPlace(data, offset, n, o, o + 8);
      NumbersInPlace(data, offset, n, o + 8);
      NumbersInPlace(data, offset, n, o + 12);
    }
  }

  /** What parsing does at an offset, in terms of the bytes there. */
  lemma ParseStep(data: seq<byte>, offset: nat)
    requires offset + HEADER_BYTES <= |data|
    ensures var n := U16(data, offset);
            Parse(data[offset..]) ==
            if n < HEADER_BYTES || offset + n > |data| then []
            else FrameMessage(data[offset..offset + n]) + Parse(data[offset + n..])
  {
    hide FrameMessage;
    var rest, n := data[offset..], U16(data, offset);
    assert U16(rest, 0) == n;
    if HEADER_BYTES <= n && offset + n <= |data| {
      assert rest[..n] == data[offset..offset + n] && rest[n..] == data[offset + n..];
    }
  }

  /** One level as read. */
  function LevelAt(data: seq<byte>, base: nat, index: nat): Level
    requires base + DEPTH_LEVELS * LEVEL_BYTES <= |data| && index < DEPTH_LEVELS
  {
    var o := base + index * LEVEL_BYTES;
    Level(index + 1, data[o..o + 8], U32(data, o + 8), U32(data, o + 12))
  }

  lemma LevelsStep(data: seq<byte>, base: nat, index: nat)
    requires base + DEPTH_LEVELS * LEVEL_BYTES <= |data| && index < DEPTH_LEVELS
    ensures Levels(data, base, index) == [LevelAt(data, base, index)] + Levels(data, base, index + 1)
  {
    hide U32;
  }

  lemma NoLevelsLeft(data: seq<byte>, base: nat)
    requires base + DEPTH_LEVELS * LEVEL_BYTES <= |data|
    ensures Levels(data, base, DEPTH_LEVELS) == []
  {
  }

  lemma MoveOver(levels: seq<Level>, level: Level, rest: seq<Level>)
    ensures levels + ([level] + rest) == levels + [level] + rest
  {
  }

  method ReadLevel(data: seq<byte>, base: nat, index: nat) returns (level: Level)
    requires base + DEPTH_LEVELS * LEVEL_BYTES <= |data| && index < DEPTH_LEVELS
    ensures level == LevelAt(data, base, index)
  {
    var o := base + index * LEVEL_BYTES;
    level := Level(index + 1, data[o..o + 8], U32(data, o + 8), U32(data, o + 12));
  }

  method ReadLevels(data: seq<byte>, base: nat) returns (levels: seq<Level>)
    requires base + DEPTH_LEVELS * LEVEL_BYTES <= |data|
    ensures levels == Levels(data, base, 0)
  {
    levels := [];
    hide Levels, LevelAt;
    NoLevelsLeft(data, base);
    for index := 0 to DEPTH_LEVELS
      invariant Levels(data, base, 0) == levels + Levels(data, base, index)
    {
      LevelsStep(data, base, index);
      var level := ReadLevel(data, base, index);
      MoveOver(levels, level, Levels(data, base, index + 1));
      levels := levels + [level];
    }
  }

  /**
   * `_parse_depth_message`: for every byte string it ends, reads within bounds, and returns the
   * messages of the whole frames at the front.
   */
  method ParseDepthMessage(data: seq<byte>) returns (messages: seq<Message>)
    ensures messages == Parse(data)
  {
    hide Parse, Levels, U32;
    messages := [];
    var offset := 0;
    assert data[0..] == data;
    while offset + HEADER_BYTES <= |data|
      invariant 0 <= offset <= |data|
      invariant Parse(data) == messages + Parse(data[offset..])
      decreases |data| - offset
    {
      ParseStep(data, offset);
      var length := U16(data, offset);
      if length < HEADER_BYTES || offset + length > |data| {
        return;
      }
      ghost var frame := data[offset..offset + length];
      var code := data[offset + 2];
      if (code == BID_CODE || code == ASK_CODE) && length >= SIDE_PACKET_BYTES {
        NumbersInPlace(data, offset, length, 4);
        LevelsInPlace(data, offset, length, 0);
        var side := if code == BID_CODE then Bid else Ask;
        var levels := ReadLevels(data, offset + HEADER_BYTES);
        messages := messages + [Message(I32(data, offset + 4), side, levels)];
      }
      offset := offset + length;
    }
    ShortIsSilent(data[offset..]);
  }

  lemma ShortIsSilent(data: seq<byte>)
    requires |data| < HEADER_BYTES
    ensures Parse(data) == []
  {
  }

  // ---- Framing ----

  function Flatten(frames: seq<seq<byte>>): seq<byte> {
    if frames == [] then [] else frames[0] + Flatten(frames[1..])
  }

  predicate AllWhole(frames: seq<seq<byte>>) { forall i :: 0 <= i < |frames| ==> Whole(frames[i]) }

  function MessagesOf(frames: seq<seq<byte>>): seq<Message>
    requires AllWhole(frames)
  {
    if frames == [] then [] else FrameMessage(frames[0]) + MessagesOf(frames[1..])
  }

  lemma ParseWholeFrame(frame: seq<byte>, rest: seq<byte>)
    requires Whole(frame)
    ensures Parse(frame + rest) == FrameMessage(frame) + Parse(rest)
  {
    var data := frame + rest;
    assert U16(data, 0) == |frame| && data[..|frame|] == frame && data[|frame|..] == rest;
  }

  /** Parsing distributes over whole frames, whatever follows them. */
  lemma {:induction false} ParseDistributes(frames: seq<seq<byte>>, rest: seq<byte>)
    requires AllWhole(frames)
    ensures Parse(Flatten(frames) + rest) == MessagesOf(frames) + Parse(rest)
  {
    hide Parse, FrameMessage, Whole;
    if frames == [] {
      assert Flatten(frames) + rest == rest;
    } else {
      assert Flatten(frames) + rest == frames[0] + (Flatten(frames[1..]) + rest);
      ParseWholeFrame(frames[0], Flatten(frames[1..]) + rest);
      ParseDistributes(frames[1..], rest);
    }
  }

  /** A frame cut short anywhere gives nothing. */
  lemma CutFrameIsSilent(frame: seq<byte>, c: nat)
    requires Whole(frame) && c < |frame|
    ensures Parse(frame[..c]) == []
  {
    if c >= HEADER_BYTES { assert U16(frame[..c], 0) == U16(frame, 0); }
  }

  /** Whole frames and the beginning of another: exactly the whole frames' messages, in order. */
  lemma TruncatedStream(frames: seq<seq<byte>>, last: seq<byte>, c: nat)
    requires AllWhole(frames)
    requires Whole(last) && c < |last|
    ensures Parse(Flatten(frames) + last[..c]) == MessagesOf(frames)
  {
    ParseDistributes(frames, last[..c]);
    CutFrameIsSilent(last, c);
  }

  lemma ParseOnce(data: seq<byte>)
    requires |data| >= HEADER_BYTES
    ensures var n := U16(data, 0);
            Parse(data) == if n < HEADER_BYTES || n > |data| then [] else FrameMessage(data[..n]) + Parse(data[n..])
  {
  }

  lemma SliceOfPrefix(data: seq<byte>, c: nat, n: nat)
    requires n <= c <= |data|
    ensures data[..c][..n] == data[..n] && data[..c][n..] == data[n..][..c - n]
  {
  }

  /** For every byte string, what is parsed from a prefix is a prefix of what is parsed from the whole. */
  lemma {:induction false} PrefixParsesToPrefix(data: seq<byte>, c: nat)
    requires c <= |data|
    ensures Parse(data[..c]) <= Parse(data)
    decreases |data|
  {
    if c < HEADER_BYTES {
      ShortIsSilent(data[..c]);
    } else {
      var n := U16(data, 0);
      assert U16(data[..c], 0) == n;
      hide Parse, FrameMessage, U16;
      ParseOnce(data);
      ParseOnce(data[..c]);
      if HEADER_BYTES <= n <= c {
        PrefixParsesToPrefix(data[n..], c - n);
        SliceOfPrefix(data, c, n);
      }
    }
  }

  // ---- Round trip ----

  function PutLevels(levels: seq<Level>): seq<byte>
    requires forall i :: 0 <= i < |levels| ==> Sendable(levels[i])
  {
    if levels == [] then []
    else PutLevels(levels[..|levels| - 1]) + PutLevel(levels[|levels| - 1])
  }

  predicate Sendable(l: Level) {
    |l.price| == 8 && 0 <= l.quantity < 0x1_0000_0000 && 0 <= l.orders < 0x1_0000_0000
  }

  function PutLevel(l: Level): seq<byte>
    requires Sendable(l)
  {
    l.price + Put32(l.quantity) + Put32(l.orders)
  }

  ghost predicate WellFormed(m: Message) {
    -0x8000_0000 <= m.securityId < 0x8000_0000 && |m.levels| == DEPTH_LEVELS &&
    forall i :: 0 <= i < DEPTH_LEVELS ==> Sendable(m.levels[i]) && m.levels[i].level == i + 1
  }

  /** A side packet as sent: length, code, a segment byte, security id, four more bytes, levels, trailer. */
  function Send(m: Message, segment: byte, more: seq<byte>, trailer: seq<byte>): seq<byte>
    requires -0x8000_0000 <= m.securityId < 0x8000_0000
    requires forall i :: 0 <= i < |m.levels| ==> Sendable(m.levels[i])
    requires |more| == 4 && HEADER_BYTES + LEVEL_BYTES * |m.levels| + |trailer| < 65536
  {
    Put16(HEADER_BYTES + LEVEL_BYTES * |m.levels| + |trailer|) + [if m.side == Bid then BID_CODE else ASK_CODE, segment]
    + PutI32(m.securityId) + more + PutLevels(m.levels) + trailer
  }

  lemma {:induction false} PutLevelsLength(levels: seq<Level>)
    requires forall j :: 0 <= j < |levels| ==> Sendable(levels[j])
    ensures |PutLevels(levels)| == LEVEL_BYTES * |levels|
  {
    if levels != [] { PutLevelsLength(levels[..|levels| - 1]); }
  }

  lemma {:induction false} PutLevelsAt(levels: seq<Level>, i: nat)
    requires forall j :: 0 <= j < |levels| ==> Sendable(levels[j])
    requires i < |levels|
    ensures |PutLevels(levels)| == LEVEL_BYTES * |levels|
    ensures PutLevels(levels)[i * LEVEL_BYTES..(i + 1) * LEVEL_BYTES] == PutLevel(levels[i])
  {
    hide PutLevel, Sendable;
    var last := |levels| - 1;
    var front, tail := PutLevels(levels[..last]), PutLevel(levels[last]);
    PutLevelsLength(levels);
    PutLevelsLength(levels[..last]);
    assert PutLevels(levels) == front + tail;
    if i < last {
      PutLevelsAt(levels[..last], i);
      SliceOfFront(front, tail, i * LEVEL_BYTES, (i + 1) * LEVEL_BYTES);
    } else {
      assert (front + tail)[|front|..|front + tail|] == tail;
    }
  }

  lemma SliceOfFront(front: seq<byte>, tail: seq<byte>, a: nat, b: nat)
    requires a <= b <= |front|
    ensures (front + tail)[a..b] == front[a..b]
  {
  }

  lemma LevelParts(l: Level)
    requires Sendable(l)
    ensures var p := PutLevel(l);
            |p| == LEVEL_BYTES && p[0..8] == l.price && p[8..12] == Put32(l.quantity) && p[12..16] == Put32(l.orders)
  {
    hide Put32;
    FourBytes(l.quantity);
    FourBytes(l.orders);
  }

  lemma FourBytes(n: nat)
    requires n < 0x1_0000_0000
    ensures |Put32(n)| == 4
  {
  }

  lemma SubSlice(data: seq<byte>, o: nat, p: seq<byte>, a: nat, b: nat)
    requires a <= b <= |p| && o + |p| <= |data| && data[o..o + |p|] == p
    ensures data[o + a..o + b] == p[a..b]
  {
    forall k | a <= k < b ensures data[o + k] == p[k] { assert data[o..o + |p|][k] == data[o + k]; }
  }

  lemma LevelRead(data: seq<byte>, o: nat, l: Level)
    requires o + LEVEL_BYTES <= |data| && Sendable(l) && data[o..o + LEVEL_BYTES] == PutLevel(l)
    ensures data[o..o + 8] == l.price && U32(data, o + 8) == l.quantity && U32(data, o + 12) == l.orders
  {
    var p := PutLevel(l);
    LevelParts(l);
    SubSlice(data, o, p, 0, 8);
    SubSlice(data, o, p, 8, 12);
    SubSlice(data, o, p, 12, 16);
    hide U32, Put32, PutLevel;
    Got32(l.quantity, data, o + 8);
    Got32(l.orders, data, o + 12);
  }

  lemma {:induction false} LevelsRead(data: seq<byte>, base: nat, levels: seq<Level>, from: nat)
    requires base + DEPTH_LEVELS * LEVEL_BYTES <= |data| && from <= DEPTH_LEVELS == |levels|
    requires forall i :: 0 <= i < |levels| ==> Sendable(levels[i]) && levels[i].level == i + 1
    requires data[base..base + DEPTH_LEVELS * LEVEL_BYTES] == PutLevels(levels)
    ensures Levels(data, base, from) == levels[from..]
    decreases DEPTH_LEVELS - from
  {
    hide U32, PutLevel, PutLevels;
    if from < DEPTH_LEVELS {
      LevelsRead(data, base, levels, from + 1);
      PutLevelsAt(levels, from);
      var o := base + from * LEVEL_BYTES;
      SliceInPlace(data, base, DEPTH_LEVELS * LEVEL_BYTES, from * LEVEL_BYTES, (from + 1) * LEVEL_BYTES);
      LevelRead(data, o, levels[from]);
    }
  }

  lemma SentLayout(m: Message, segment: byte, more: seq<byte>, trailer: seq<byte>)
    requires WellFormed(m) && |more| == 4 && SIDE_PACKET_BYTES + |trailer| < 65536
    ensures var frame, n := Send(m, segment, more, trailer), SIDE_PACKET_BYTES + |trailer|;
            |frame| == n && frame[0] == n % 256 && frame[1] == n / 256 &&
            frame[2] == (if m.side == Bid then BID_CODE else ASK_CODE) &&
            frame[4..8] == PutI32(m.securityId) &&
            frame[HEADER_BYTES..HEADER_BYTES + DEPTH_LEVELS * LEVEL_BYTES] == PutLevels(m.levels)
  {
    hide PutLevel, Sendable, Put32;
    PutLevelsAt(m.levels, 0);
    assert |PutI32(m.securityId)| == 4 by { Four(m.securityId); }
    var n := SIDE_PACKET_BYTES + |trailer|;
    var head := Put16(n) + [if m.side == Bid then BID_CODE else ASK_CODE, segment];
    var front := head + PutI32(m.securityId) + more;
    assert Send(m, segment, more, trailer) == front + PutLevels(m.levels) + trailer;
    assert |head| == 4 && |front| == HEADER_BYTES;
    assert front[4..8] == PutI32(m.securityId);
  }

  /** A number of which the low byte comes first. */
  function LowFirst(bytes: seq<byte>): nat { if bytes == [] then 0 else bytes[0] as int + 256 * LowFirst(bytes[1..]) }

  lemma LowFirstOf(s: seq<byte>, o: nat)
    requires o + 4 <= |s|
    ensures LowFirst(s[o..o + 2]) == U16(s, o) && LowFirst(s[o..o + 4]) == U32(s, o)
  {
    var two, four := s[o..o + 2], s[o..o + 4];
    var three := four[1..];
    var last := three[1..];
    assert two[1..] == [s[o + 1]] && LowFirst([s[o + 1]]) == s[o + 1] as int;
    assert last[1..] == [s[o + 3]] && LowFirst([s[o + 3]]) == s[o + 3] as int;
    assert last[0] == s[o + 2] && LowFirst(last) == s[o + 2] as int + 256 * s[o + 3] as int;
    assert three[0] == s[o + 1] && LowFirst(three) == s[o + 1] as int + 256 * LowFirst(last);
  }

  /**
   * A sent packet byte by byte: its length, 41 for bids and 51 for asks in the third byte, the security id in
   * two's complement from the fifth on, and from the thirteenth on twenty levels of sixteen bytes, the price in
   * the first eight, then the quantity and the number of orders.
   */
  lemma WireBytes(m: Message, segment: byte, more: seq<byte>, trailer: seq<byte>, i: nat)
    requires WellFormed(m) && |more| == 4 && SIDE_PACKET_BYTES + |trailer| < 65536 && i < 20
    ensures var s := Send(m, segment, more, trailer);
            |s| == 332 + |trailer| && LowFirst(s[0..2]) == |s| && s[2] == (if m.side == Bid then 41 else 51) &&
            LowFirst(s[4..8]) == if m.securityId < 0 then m.securityId + 0x1_0000_0000 else m.securityId
    ensures var s, o := Send(m, segment, more, trailer), 12 + 16 * i;
            m.levels[i].level == i + 1 && s[o..o + 8] == m.levels[i].price &&
            LowFirst(s[o + 8..o + 12]) == m.levels[i].quantity &&
            LowFirst(s[o + 12..o + 16]) == m.levels[i].orders
  {
    hide Send, PutLevels, PutLevel, Put32, LowFirst;
    var s, o := Send(m, segment, more, trailer), 12 + 16 * i;
    SentLayout(m, segment, more, trailer);
    Got32(if m.securityId < 0 then m.securityId + 0x1_0000_0000 else m.securityId, s, 4);
    PutLevelsAt(m.levels, i);
    SliceInPlace(s, HEADER_BYTES, DEPTH_LEVELS * LEVEL_BYTES, i * LEVEL_BYTES, (i + 1) * LEVEL_BYTES);
    LevelRead(s, o, m.levels[i]);
    LowFirstOf(s, 0);
    LowFirstOf(s, 4);
    LowFirstOf(s, o + 8);
    LowFirstOf(s, o + 12);
  }

  lemma Four(n: int)
    requires -0x8000_0000 <= n < 0x8000_0000
    ensures |PutI32(n)| == 4
  {
  }

  /** What was sent is what is parsed, for every message, sign of the security id and trailing bytes. */
  lemma SendThenParse(m: Message, segment: byte, more: seq<byte>, trailer: seq<byte>)
    requires WellFormed(m) && |more| == 4 && SIDE_PACKET_BYTES + |trailer| < 65536
    ensures Whole(Send(m, segment, more, trailer))
    ensures FrameMessage(Send(m, segment, more, trailer)) == [m]
  {
    hide Send, PutLevels, Levels;
    var frame := Send(m, segment, more, trailer);
    SentLayout(m, segment, more, trailer);
    Got32(if m.securityId < 0 then m.securityId + 0x1_0000_0000 else m.securityId, frame, 4);
    LevelsRead(frame, HEADER_BYTES, m.levels, 0);
    assert m.levels[0..] == m.levels;
  }

  /** Frames of messages sent one after another. */
  ghost predicate Carries(frames: seq<seq<byte>>, messages: seq<Message>) {
    |frames| == |messages| &&
    forall i :: 0 <= i < |frames| ==> Whole(frames[i]) && FrameMessage(frames[i]) == [messages[i]]
  }

  /** A stream of sent side packets, cut inside the next one, gives exactly the messages sent before it, in order. */
  lemma {:induction false} SentStreamArrives(frames: seq<seq<byte>>, messages: seq<Message>, last: seq<byte>, c: nat)
    requires Carries(frames, messages) && Whole(last) && c < |last|
    ensures Parse(Flatten(frames) + last[..c]) == messages
  {
    TruncatedStream(frames, last, c);
    CarriedMessages(frames, messages);
  }

  lemma {:induction false} CarriedMessages(frames: seq<seq<byte>>, messages: seq<Message>)
    requires Carries(frames, messages)
    ensures MessagesOf(frames) == messages
  {
    if frames != [] { CarriedMessages(frames[1..], messages[1..]); }
  }
}
