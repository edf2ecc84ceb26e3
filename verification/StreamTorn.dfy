/** Blocks that a failing write has torn. */
module StreamTorn {
  // A write that fails part way leaves the beginning of a block in the file, and the next minute is
  // appended right behind it: the torn line and the next block's first line become one.

  import opened Basics
  import opened StreamText
  import opened StreamFile
  import opened StreamPrefix

  /** What of a block reached the file: some whole lines and the beginning of the next. */
  datatype Piece = Piece(block: Block, lines: nat, tail: string) {
    predicate Whole() { lines == |block.rows| + 1 }
    function Text(): string requires lines <= |block.rows| + 1 { Join(BlockLines(block)[..lines]) + tail }
  }

  ghost predicate Torn(header: string, pc: Piece) {
    var lines := BlockLines(pc.block);
    (forall t :: 0 <= t < |pc.block.rows| ==> DataRow(header, pc.block.rows[t])) &&
    pc.lines <= |lines| && if pc.lines < |lines| then pc.tail <= lines[pc.lines] else pc.tail == ""
  }

  ghost predicate TornFile(header: string, pieces: seq<Piece>) {
    OneLine(header) && header != "" && !("#END" <= header) &&
    forall i :: 0 <= i < |pieces| ==> Torn(header, pieces[i])
  }

  lemma BlockOneLine(header: string, b: Block)
    requires forall t :: 0 <= t < |b.rows| ==> DataRow(header, b.rows[t])
    ensures AllOneLine(BlockLines(b))
  {
    EndLineOneLine(b);
    forall i | 0 <= i < |BlockLines(b)| ensures OneLine(BlockLines(b)[i]) {
      if i < |b.rows| { assert DataRow(header, b.rows[i]); }
    }
  }

  function TornText(header: string, pieces: seq<Piece>): string
    requires forall i :: 0 <= i < |pieces| ==> pieces[i].lines <= |pieces[i].block.rows| + 1
  {
    if pieces == [] then header + "\n" else TornText(header, pieces[..|pieces| - 1]) + pieces[|pieces| - 1].Text()
  }

  /** However many characters of a block are written, that is such a piece, and a whole one if all of them are. */
  lemma EveryCutIsAPiece(header: string, b: Block, c: nat) returns (pc: Piece)
    requires forall t :: 0 <= t < |b.rows| ==> DataRow(header, b.rows[t])
    requires c <= |Join(BlockLines(b))|
    ensures pc.block == b && Torn(header, pc) && pc.Text() == Join(BlockLines(b))[..c]
    ensures c == |Join(BlockLines(b))| ==> pc.Whole()
  {
    var lines := BlockLines(b);
    if c == |Join(lines)| {
      pc := Piece(b, |lines|, "");
      assert lines[..|lines|] == lines && Join(lines) + "" == Join(lines)[..c];
    } else {
      BlockOneLine(header, b);
      var t, tail := PrefixOfJoin(lines, c);
      pc := Piece(b, t, tail);
    }
  }

  /** One append to a file of whole and torn blocks, with room for so many characters, gives another such file. */
  lemma AppendGivesPiece(header: string, pieces: seq<Piece>, b: Block, room: nat) returns (pc: Piece)
    requires TornFile(header, pieces)
    requires forall t :: 0 <= t < |b.rows| ==> DataRow(header, b.rows[t])
    ensures pc.block == b && TornFile(header, pieces + [pc])
    ensures room >= |Join(BlockLines(b))| ==> pc.Whole()
    ensures var block := Join(BlockLines(b));
            TornText(header, pieces + [pc]) == TornText(header, pieces) + block[..MinInt(room, |block|)]
  {
    pc := EveryCutIsAPiece(header, b, MinInt(room, |Join(BlockLines(b))|));
    hide Torn, DataRow, Join, EndLine;
    var more := pieces + [pc];
    assert more[..|more| - 1] == pieces;
  }

  // ---- As lines ----

  /** What stands behind the last newline. */
  function Pending(pieces: seq<Piece>): string {
    if pieces == [] then ""
    else
      var pc := pieces[|pieces| - 1];
      (if pc.lines == 0 then Pending(pieces[..|pieces| - 1]) else "") + pc.tail
  }

  /** The finished lines: the first line of a piece is glued to what stood there before. */
  function TornLines(header: string, pieces: seq<Piece>): seq<string>
    requires forall i :: 0 <= i < |pieces| ==> pieces[i].lines <= |pieces[i].block.rows| + 1
  {
    if pieces == [] then [header]
    else
      var init, pc := pieces[..|pieces| - 1], pieces[|pieces| - 1];
      TornLines(header, init) + GluedLines(Pending(init), pc)
  }

  function GluedLines(pending: string, pc: Piece): seq<string>
    requires pc.lines <= |pc.block.rows| + 1
  {
    var lines := BlockLines(pc.block)[..pc.lines];
    if lines == [] then [] else [pending + lines[0]] + lines[1..]
  }

  lemma GluedText(full: seq<string>, pending: string, pc: Piece)
    requires pc.lines <= |pc.block.rows| + 1
    ensures Join(full) + pending + pc.Text() ==
            Join(full + GluedLines(pending, pc)) + ((if pc.lines == 0 then pending else "") + pc.tail)
  {
    var lines := BlockLines(pc.block)[..pc.lines];
    JoinConcat(full, GluedLines(pending, pc));
    if lines == [] {
      assert full + [] == full && Join(lines) == "";
      hide Join;
      Regroup(Join(full), pending, "", pc.tail);
    } else {
      GluedJoin(pending, lines);
      hide Join;
      Regroup(Join(full), pending, Join(lines), pc.tail);
    }
  }

  lemma Regroup(a: string, b: string, c: string, d: string)
    ensures a + b + (c + d) == a + (b + c) + d == a + (b + c + d)
    ensures c == "" ==> a + b + (c + d) == a + (b + d)
    ensures "" + d == d
  {
  }

  lemma GluedJoin(pending: string, lines: seq<string>)
    requires lines != []
    ensures Join([pending + lines[0]] + lines[1..]) == pending + Join(lines)
  {
    var glued := [pending + lines[0]] + lines[1..];
    assert glued[1..] == lines[1..];
    assert pending + lines[0] + "\n" + Join(lines[1..]) == pending + (lines[0] + "\n" + Join(lines[1..]));
  }

  lemma {:induction false} TextAsLines(header: string, pieces: seq<Piece>)
    requires TornFile(header, pieces)
    ensures TornText(header, pieces) == Join(TornLines(header, pieces)) + Pending(pieces)
    ensures AllOneLine(TornLines(header, pieces)) && OneLine(Pending(pieces))
  {
    if pieces == [] {
      assert Join([header]) == header + "\n" + Join([]);
    } else {
      var init, pc := pieces[..|pieces| - 1], pieces[|pieces| - 1];
      TextAsLines(header, init);
      GluedText(TornLines(header, init), Pending(init), pc);
      GluedOneLine(header, Pending(init), pc);
    }
  }

  lemma GluedOneLine(header: string, pending: string, pc: Piece)
    requires Torn(header, pc) && OneLine(pending)
    ensures AllOneLine(GluedLines(pending, pc)) && OneLine(pc.tail)
  {
    BlockOneLine(header, pc.block);
    var lines := BlockLines(pc.block);
    if pc.lines < |lines| { assert OneLine(lines[pc.lines]); }
    forall i | 0 <= i < |GluedLines(pending, pc)| ensures OneLine(GluedLines(pending, pc)[i]) {
      assert OneLine(lines[i]);
    }
  }

  // ---- What is read ----

  /** What one line alone gives a reader who knows the header. */
  function Alone(header: string, line: string): Reading { ReadLine(Reading(Some(header), [], []), line) }

  /** The rows and minutes of one piece, the first line glued. */
  function Gains(header: string, pending: string, pc: Piece): Reading {
    if pc.lines == 0 then Reading(Some(header), [], [])
    else
      var rows, first := pc.block.rows, Alone(header, pending + BlockLines(pc.block)[0]);
      if rows == [] then first
      else
        Reading(Some(header), first.rows + rows[1..MinInt(pc.lines, |rows|)],
                first.minutes + if pc.Whole() then [pc.block.minute] else [])
  }

  function Plus(r: Reading, more: Reading): Reading {
    r.(rows := r.rows + more.rows, minutes := r.minutes + more.minutes)
  }

  ghost function Gathered(header: string, pieces: seq<Piece>): Reading
    requires TornFile(header, pieces)
  {
    if pieces == [] then Reading(Some(header), [], [])
    else
      var init, pc := pieces[..|pieces| - 1], pieces[|pieces| - 1];
      Plus(Gathered(header, init), Gains(header, Pending(init), pc))
  }

  lemma LineAlone(header: string, r: Reading, line: string)
    requires r.header == Some(header)
    ensures ReadLine(r, line) == Plus(r, Alone(header, line))
  {
  }

  lemma PieceRead(header: string, r: Reading, pending: string, pc: Piece)
    requires r.header == Some(header) && Torn(header, pc)
    ensures ReadLines(r, GluedLines(pending, pc)) == Plus(r, Gains(header, pending, pc))
  {
    hide Alone, ReadLine, ReadLines, EndLine;
    if pc.lines == 0 {
      NoLineRead(r);
    } else if pc.block.rows == [] {
      var line := pending + EndLine(pc.block);
      assert GluedLines(pending, pc) == [line];
      OneLineRead(r, line);
      LineAlone(header, r, line);
    } else {
      RowPieceRead(header, r, pending, pc);
    }
  }

  lemma RowPieceRead(header: string, r: Reading, pending: string, pc: Piece)
    requires r.header == Some(header) && Torn(header, pc) && pc.lines > 0 && pc.block.rows != []
    ensures ReadLines(r, GluedLines(pending, pc)) == Plus(r, Gains(header, pending, pc))
  {
    hide Alone, ReadLine, ReadLines, EndLine;
    var n := MinInt(pc.lines, |pc.block.rows|);
    var rows := [pending + pc.block.rows[0]] + pc.block.rows[1..n];
    RowsRead(header, r, pending, pc.block.rows, n);
    if pc.Whole() {
      WholeLines(pending, pc);
      assert pc.block.rows[1..n] == pc.block.rows[1..];
      assert GluedLines(pending, pc) == rows + [EndLine(pc.block)];
      EndRead(ReadLines(r, rows), pc.block);
      ReadConcat(r, rows, [EndLine(pc.block)]);
      AppendTwice(r.minutes, Alone(header, rows[0]).minutes, [pc.block.minute]);
    } else {
      assert BlockLines(pc.block)[..n] == pc.block.rows[..n];
      assert GluedLines(pending, pc) == rows;
      AppendTwice(r.minutes, Alone(header, rows[0]).minutes, []);
    }
  }

  lemma AppendTwice(a: seq<nat>, b: seq<nat>, c: seq<nat>)
    ensures a + (b + c) == a + b + c && b + [] == b
  {
  }

  lemma NoLineRead(r: Reading)
    ensures ReadLines(r, []) == r
    ensures r.rows + [] == r.rows && r.minutes + [] == r.minutes
  {
  }

  lemma WholeLines(pending: string, pc: Piece)
    requires pc.Whole() && pc.block.rows != []
    ensures GluedLines(pending, pc) == [pending + pc.block.rows[0]] + pc.block.rows[1..] + [EndLine(pc.block)]
  {
    hide EndLine;
    var lines := BlockLines(pc.block);
    assert lines[..pc.lines] == lines && lines[1..] == pc.block.rows[1..] + [EndLine(pc.block)];
  }

  /** The rows of a block, the first one glued. */
  lemma RowsRead(header: string, r: Reading, pending: string, rows: seq<string>, n: nat)
    requires r.header == Some(header) && 0 < n <= |rows|
    requires forall t :: 0 <= t < |rows| ==> DataRow(header, rows[t])
    ensures var first := Alone(header, pending + rows[0]);
            ReadLines(r, [pending + rows[0]] + rows[1..n]) ==
            r.(rows := r.rows + (first.rows + rows[1..n]), minutes := r.minutes + first.minutes)
  {
    var first := pending + rows[0];
    LineAlone(header, r, first);
    OneLineRead(r, first);
    hide Alone, ReadLine, ReadLines, DataRow;
    ReadConcat(r, [first], rows[1..n]);
    ReadRows(ReadLine(r, first), header, rows[1..n]);
    assert r.rows + (Alone(header, first).rows + rows[1..n]) == r.rows + Alone(header, first).rows + rows[1..n];
  }

  /** A whole end line gives its minute. */
  lemma EndRead(r: Reading, b: Block)
    ensures ReadLines(r, [EndLine(b)]) == r.(minutes := r.minutes + [b.minute])
  {
    EndLineOneLine(b);
    OneLineRead(r, EndLine(b));
    ReadEndLine(r, b, EndLine(b));
    SeenWhole(b, |EndLine(b)| - 5);
  }

  lemma OneLineRead(r: Reading, line: string)
    ensures ReadLines(r, [line]) == ReadLine(r, line)
  {
    assert [line][..0] == [] && ReadLines(r, []) == r;
  }

  lemma {:induction false} LinesRead(header: string, pieces: seq<Piece>)
    requires TornFile(header, pieces)
    ensures ReadLines(Nothing, TornLines(header, pieces)) == Gathered(header, pieces)
    ensures Gathered(header, pieces).header == Some(header)
  {
    if pieces == [] {
      ReadHeader(header);
    } else {
      var init, pc := pieces[..|pieces| - 1], pieces[|pieces| - 1];
      LinesRead(header, init);
      ReadConcat(Nothing, TornLines(header, init), GluedLines(Pending(init), pc));
      PieceRead(header, Gathered(header, init), Pending(init), pc);
    }
  }

  /** The last piece is whole, its end line on a line of its own. */
  predicate EndsWhole(pieces: seq<Piece>) {
    pieces != [] &&
    var pc := pieces[|pieces| - 1];
    pc.Whole() && (pc.block.rows != [] || Pending(pieces[..|pieces| - 1]) == "")
  }

  /**
   * How far a file is read: the pieces read to their end, and the line that shows the last marker if that is
   * not the end line of a whole block on a line of its own.
   */
  datatype Extent = Extent(pieces: nat, line: string)

  /** Looking at finished lines only. */
  function FinishedExtent(pieces: seq<Piece>): (x: Extent)
    ensures x.pieces <= |pieces|
  {
    if pieces == [] then Extent(0, "")
    else
      var init, pc := pieces[..|pieces| - 1], pieces[|pieces| - 1];
      if EndsWhole(pieces) then Extent(|pieces|, "")
      else if pc.lines > 0 && MARKER <= Pending(init) + BlockLines(pc.block)[0] then
        Extent(|init|, Pending(init) + BlockLines(pc.block)[0])
      else FinishedExtent(init)
  }

  function ExtentOf(pieces: seq<Piece>): (x: Extent)
    ensures x.pieces <= |pieces|
  {
    if MARKER <= Pending(pieces) then Extent(|pieces|, Pending(pieces)) else FinishedExtent(pieces)
  }

  /** The minute an end line shows, if it can be read. */
  function ShownMinute(line: string): seq<nat> {
    var word := SecondWord(FirstField(line));
    if AllDigits(word) then [Value(word)] else []
  }

  ghost function ReadTo(header: string, pieces: seq<Piece>, x: Extent): Reading
    requires TornFile(header, pieces) && x.pieces <= |pieces|
  {
    if x == Extent(0, "") then Nothing
    else Plus(Gathered(header, pieces[..x.pieces]), Reading(Some(header), [], ShownMinute(x.line)))
  }

  /** The lines up to the last marked one. */
  function Marked(lines: seq<string>): seq<string> { lines[..LastMarked(lines) + 1] }

  lemma NoMinuteShown(r: Reading)
    ensures ShownMinute("") == [] && Plus(r, Reading(r.header, [], [])) == r
  {
  }

  lemma MarkedAlone(header: string, r: Reading, line: string)
    requires r.header == Some(header) && MARKER <= line
    ensures ReadLine(r, line) == Plus(r, Reading(Some(header), [], ShownMinute(line)))
  {
    MarkerBeginsEnd(line);
  }

  lemma EndsMarked(header: string, pieces: seq<Piece>)
    requires TornFile(header, pieces) && EndsWhole(pieces)
    ensures var lines := TornLines(header, pieces); |lines| > 1 && MARKER <= lines[|lines| - 1]
  {
    var init, pc := pieces[..|pieces| - 1], pieces[|pieces| - 1];
    EndLineOneLine(pc.block);
    hide EndLine;
    HeaderFirst(header, init);
    var glued := GluedLines(Pending(init), pc);
    assert "" + EndLine(pc.block) == EndLine(pc.block);
    assert glued[|glued| - 1] == EndLine(pc.block);
  }

  lemma {:induction false} HeaderFirst(header: string, pieces: seq<Piece>)
    requires TornFile(header, pieces)
    ensures TornLines(header, pieces) != []
  {
    if pieces != [] { HeaderFirst(header, pieces[..|pieces| - 1]); }
  }

  lemma MarkedLast(lines: seq<string>, line: string)
    requires lines != [] && MARKER <= line
    ensures Marked(lines + [line]) == lines + [line]
  {
    var all := lines + [line];
    assert all[..|all|] == all;
  }

  lemma MarkedBefore(lines: seq<string>, tail: seq<string>)
    requires lines != [] && forall t :: 0 <= t < |tail| ==> !(MARKER <= tail[t])
    ensures Marked(lines + tail) == Marked(lines)
  {
    UnmarkedTail(lines, tail);
    var j := LastMarked(lines) + 1;
    assert (lines + tail)[..j] == lines[..j];
  }

  /** Of a piece that does not end whole, no line behind the first is marked. */
  lemma LaterUnmarked(header: string, pieces: seq<Piece>)
    requires TornFile(header, pieces) && pieces != [] && !EndsWhole(pieces)
    ensures var init, pc := pieces[..|pieces| - 1], pieces[|pieces| - 1];
            var glued := GluedLines(Pending(init), pc);
            (glued == [] <==> pc.lines == 0) &&
            (glued != [] ==> glued[0] == Pending(init) + BlockLines(pc.block)[0]) &&
            forall t :: 0 < t < |glued| ==> !(MARKER <= glued[t])
  {
    var init, pc := pieces[..|pieces| - 1], pieces[|pieces| - 1];
    var glued := GluedLines(Pending(init), pc);
    forall t | 0 < t < |glued| ensures !(MARKER <= glued[t]) {
      assert glued[t] == BlockLines(pc.block)[t] == pc.block.rows[t];
      assert DataRow(header, pc.block.rows[t]);
      MarkerBeginsEnd(pc.block.rows[t]);
    }
  }

  lemma {:induction false} FinishedRead(header: string, pieces: seq<Piece>)
    requires TornFile(header, pieces)
    ensures ReadLines(Nothing, Marked(TornLines(header, pieces))) == ReadTo(header, pieces, FinishedExtent(pieces))
  {
    if pieces != [] {
      var init := pieces[..|pieces| - 1];
      if EndsWhole(pieces) {
        WholeEndRead(header, pieces);
      } else {
        FinishedRead(header, init);
        OpenEndRead(header, pieces);
      }
    }
  }

  lemma WholeEndRead(header: string, pieces: seq<Piece>)
    requires TornFile(header, pieces) && EndsWhole(pieces)
    ensures ReadLines(Nothing, Marked(TornLines(header, pieces))) == ReadTo(header, pieces, FinishedExtent(pieces))
  {
    LinesRead(header, pieces);
    EndsMarked(header, pieces);
    hide TornLines, Gathered, EndsWhole, ReadLines, ShownMinute, Marked;
    MarkedWhole(TornLines(header, pieces));
    NoMinuteShown(Gathered(header, pieces));
    assert pieces[..|pieces|] == pieces;
  }

  lemma MarkedWhole(lines: seq<string>)
    requires |lines| > 1 && MARKER <= lines[|lines| - 1]
    ensures Marked(lines) == lines
  {
    assert lines[..|lines|] == lines;
  }

  /** What the lines of a last piece that does not end whole add to the reading. */
  lemma OpenEndRead(header: string, pieces: seq<Piece>)
    requires TornFile(header, pieces) && pieces != [] && !EndsWhole(pieces)
    requires var init := pieces[..|pieces| - 1];
             ReadLines(Nothing, Marked(TornLines(header, init))) == ReadTo(header, init, FinishedExtent(init))
    ensures ReadLines(Nothing, Marked(TornLines(header, pieces))) == ReadTo(header, pieces, FinishedExtent(pieces))
  {
    var init, pc := pieces[..|pieces| - 1], pieces[|pieces| - 1];
    var lines, glued := TornLines(header, init), GluedLines(Pending(init), pc);
    assert TornLines(header, pieces) == lines + glued;
    LaterUnmarked(header, pieces);
    HeaderFirst(header, init);
    LinesRead(header, init);
    hide TornLines, GluedLines, Pending, BlockLines, ReadTo, ReadLines, Marked;
    if glued != [] && MARKER <= glued[0] {
      GluedMark(header, Gathered(header, init), lines, glued);
      ReadToGlue(header, pieces, glued[0]);
    } else {
      MarkedBefore(lines, glued);
      ReadToBefore(header, pieces, init, FinishedExtent(init));
    }
  }

  /** The first glued line is the last marked one. */
  lemma GluedMark(header: string, r: Reading, lines: seq<string>, glued: seq<string>)
    requires lines != [] && glued != [] && MARKER <= glued[0]
    requires forall t :: 0 < t < |glued| ==> !(MARKER <= glued[t])
    requires ReadLines(Nothing, lines) == r && r.header == Some(header)
    ensures ReadLines(Nothing, Marked(lines + glued)) == Plus(r, Reading(Some(header), [], ShownMinute(glued[0])))
  {
    var more := lines + [glued[0]];
    assert lines + glued == more + glued[1..];
    hide ReadLines, ReadLine, Marked, ShownMinute;
    MarkedBefore(more, glued[1..]);
    MarkedLast(lines, glued[0]);
    ReadOneLineMore(lines, glued[0]);
    MarkedAlone(header, r, glued[0]);
  }

  lemma ReadToGlue(header: string, pieces: seq<Piece>, line: string)
    requires TornFile(header, pieces) && pieces != [] && MARKER <= line
    ensures ReadTo(header, pieces, Extent(|pieces| - 1, line)) ==
            Plus(Gathered(header, pieces[..|pieces| - 1]), Reading(Some(header), [], ShownMinute(line)))
  {
    hide Gathered, ShownMinute;
  }

  lemma ReadToBefore(header: string, pieces: seq<Piece>, init: seq<Piece>, x: Extent)
    requires TornFile(header, pieces) && TornFile(header, init) && init <= pieces && x.pieces <= |init|
    ensures ReadTo(header, pieces, x) == ReadTo(header, init, x)
  {
    assert pieces[..x.pieces] == init[..x.pieces];
    hide Gathered, ShownMinute;
  }

  lemma ReadOneLineMore(lines: seq<string>, line: string)
    ensures ReadLines(Nothing, lines + [line]) == ReadLine(ReadLines(Nothing, lines), line)
  {
    assert (lines + [line])[..|lines|] == lines;
  }

  /**
   * Whatever was torn, wherever the file ends: it reads as the sum of its pieces up to the last marker, each
   * giving the whole lines it has, its first one glued to what an earlier tear left, and, if a tear shows that
   * marker, the minute still to be seen behind it.
   */
  lemma ReadOfTornFile(header: string, pieces: seq<Piece>)
    requires TornFile(header, pieces)
    ensures Read(TornText(header, pieces)) == ReadTo(header, pieces, ExtentOf(pieces))
  {
    var lines, last := TornLines(header, pieces), Pending(pieces);
    MarkedText(header, pieces);
    HeaderFirst(header, pieces);
    FinishedRead(header, pieces);
    LinesRead(header, pieces);
    hide TornLines, TornText, Pending, Gathered, FinishedExtent, Read, ReadLines, Marked, ReadTo;
    if MARKER <= last {
      GluedMark(header, Gathered(header, pieces), lines, [last]);
      ReadToEnd(header, pieces, last);
    } else {
      MarkedBefore(lines, Unfinished(last));
    }
  }

  lemma MarkedText(header: string, pieces: seq<Piece>)
    requires TornFile(header, pieces)
    ensures Read(TornText(header, pieces)) ==
            ReadLines(Nothing, Marked(TornLines(header, pieces) + Unfinished(Pending(pieces))))
  {
    TextAsLines(header, pieces);
    hide TornLines, TornText, Pending, ReadLines, Body, SplitLines, LastMarked;
    BodyLines(TornLines(header, pieces), Pending(pieces));
  }

  lemma ReadToEnd(header: string, pieces: seq<Piece>, line: string)
    requires TornFile(header, pieces) && MARKER <= line
    ensures ReadTo(header, pieces, Extent(|pieces|, line)) ==
            Plus(Gathered(header, pieces), Reading(Some(header), [], ShownMinute(line)))
  {
    assert pieces[..|pieces|] == pieces;
    hide Gathered, ShownMinute;
  }

  /** An end line torn behind its marker shows a minute, perhaps with digits cut off, that was never finished. */
  lemma TornEndIsRead(header: string, pieces: seq<Piece>, b: Block, tail: string)
    requires TornFile(header, pieces) && pieces != [] && pieces[|pieces| - 1] == Piece(b, |b.rows|, tail)
    requires MARKER <= tail && (b.rows != [] || Pending(pieces[..|pieces| - 1]) == "")
    ensures Read(TornText(header, pieces)) ==
            Plus(Gathered(header, pieces), Reading(Some(header), [], Seen(b.minute, |tail| - 5)))
  {
    TornPending(header, pieces, b, tail);
    ReadOfTornFile(header, pieces);
    hide TornText, Gathered, Read, ReadTo, Plus, FinishedExtent, ShownMinute, Seen, EndLine, Pending, Torn;
    ReadToEnd(header, pieces, tail);
    TornEndMinute(header, b, tail);
  }

  lemma TornPending(header: string, pieces: seq<Piece>, b: Block, tail: string)
    requires TornFile(header, pieces) && pieces != [] && pieces[|pieces| - 1] == Piece(b, |b.rows|, tail)
    requires b.rows != [] || Pending(pieces[..|pieces| - 1]) == ""
    ensures Pending(pieces) == tail && tail <= EndLine(b)
  {
    hide DataRow, EndLine;
    assert Torn(header, pieces[|pieces| - 1]) && "" + tail == tail;
  }

  lemma TornEndMinute(header: string, b: Block, tail: string)
    requires MARKER <= tail <= EndLine(b)
    ensures ShownMinute(tail) == Seen(b.minute, |tail| - 5)
  {
    var none := Reading(Some(header), [], []);
    MarkedAlone(header, none, tail);
    ReadEndLine(none, b, tail);
    hide ReadLine, ShownMinute, Seen;
    assert [] + ShownMinute(tail) == ShownMinute(tail) && [] + Seen(b.minute, |tail| - 5) == Seen(b.minute, |tail| - 5);
  }

  // ---- When a torn block goes unread ----

  /** A line glued to a tear is read neither as a row nor as a minute. */
  predicate Silent(header: string, pending: string, line: string) {
    pending != "" && Alone(header, pending + line) == Reading(Some(header), [], [])
  }

  /** The rows of a whole block and its minute, without a first line that is glued to a tear. */
  function OwnOf(pending: string, pc: Piece): (seq<string>, seq<nat>) {
    if !pc.Whole() then ([], [])
    else if pending == "" then (pc.block.rows, [pc.block.minute])
    else if pc.block.rows == [] then ([], [])
    else (pc.block.rows[1..], [pc.block.minute])
  }

  function Own(pieces: seq<Piece>): (seq<string>, seq<nat>) {
    if pieces == [] then ([], [])
    else
      var init, pc := pieces[..|pieces| - 1], pieces[|pieces| - 1];
      var own, more := Own(init), OwnOf(Pending(init), pc);
      (own.0 + more.0, own.1 + more.1)
  }

  /** Nothing of a torn block shows in what this piece gives. */
  predicate ShowsNoTear(header: string, pending: string, pc: Piece) {
    if pc.lines == 0 then true
    else if pc.Whole() then pending == "" || Silent(header, pending, BlockLines(pc.block)[0])
    else pc.lines == 1 && Silent(header, pending, BlockLines(pc.block)[0])
  }

  ghost predicate NoTearShows(header: string, pieces: seq<Piece>)
    requires TornFile(header, pieces)
  {
    pieces == [] ||
    (NoTearShows(header, pieces[..|pieces| - 1]) &&
     ShowsNoTear(header, Pending(pieces[..|pieces| - 1]), pieces[|pieces| - 1]))
  }

  lemma RowAlone(header: string, row: string)
    requires DataRow(header, row)
    ensures Alone(header, row) == Reading(Some(header), [row], [])
  {
  }

  lemma KeepsHeader(header: string, line: string)
    ensures Alone(header, line).header == Some(header)
  {
  }

  lemma EndAlone(header: string, b: Block)
    ensures Alone(header, EndLine(b)) == Reading(Some(header), [], [b.minute])
  {
    EndLineOneLine(b);
    ReadEndLine(Reading(Some(header), [], []), b, EndLine(b));
    SeenWhole(b, |EndLine(b)| - 5);
  }

  /** One piece gives what is its own, or more exactly if a tear shows in it. */
  lemma PieceOwn(header: string, pending: string, pc: Piece)
    requires Torn(header, pc)
    ensures var g, own := Gains(header, pending, pc), OwnOf(pending, pc);
            |own.0| <= |g.rows| && |own.1| <= |g.minutes| &&
            (ShowsNoTear(header, pending, pc) <==> g.rows == own.0 && g.minutes == own.1) &&
            (!ShowsNoTear(header, pending, pc) ==> |own.0| + |own.1| < |g.rows| + |g.minutes|)
  {
    hide ReadLine, DataRow, Join, EndLine;
    var rows := pc.block.rows;
    if pc.lines > 0 {
      var line := BlockLines(pc.block)[0];
      assert "" + line == line;
      KeepsHeader(header, pending + line);
      if rows == [] {
        EndAlone(header, pc.block);
      } else {
        RowAlone(header, rows[0]);
        assert [rows[0]] + rows[1..] == rows;
      }
      hide Alone;
    }
  }

  /** Pieces give what is their own, or more exactly if a tear shows in them. */
  lemma {:induction false} GatheredOwn(header: string, pieces: seq<Piece>)
    requires TornFile(header, pieces)
    ensures var g, own := Gathered(header, pieces), Own(pieces);
            |own.0| <= |g.rows| && |own.1| <= |g.minutes| &&
            (NoTearShows(header, pieces) <==> g.rows == own.0 && g.minutes == own.1) &&
            (!NoTearShows(header, pieces) ==> |own.0| + |own.1| < |g.rows| + |g.minutes|)
  {
    if pieces != [] {
      var init, pc := pieces[..|pieces| - 1], pieces[|pieces| - 1];
      GatheredOwn(header, init);
      PieceOwn(header, Pending(init), pc);
      hide Gains, ShowsNoTear, Pending, OwnOf;
    }
  }

  /** No tear shows up to the last marker, nor does that marker show a minute if a tear leaves it. */
  ghost predicate NoTearRead(header: string, pieces: seq<Piece>)
    requires TornFile(header, pieces)
  {
    var x := ExtentOf(pieces);
    NoTearShows(header, pieces[..x.pieces]) && ShownMinute(x.line) == []
  }

  /** Behind the last whole block nothing is any whole block's own. */
  lemma {:induction false} OwnBeforeMark(pieces: seq<Piece>)
    ensures Own(pieces) == Own(pieces[..FinishedExtent(pieces).pieces])
  {
    if pieces != [] {
      var init := pieces[..|pieces| - 1];
      if EndsWhole(pieces) {
        assert pieces[..|pieces|] == pieces;
      } else {
        OpenOwnsNothing(pieces);
        OwnBeforeMark(init);
        assert pieces[..|init|] == init;
        var k := FinishedExtent(init).pieces;
        assert pieces[..k] == init[..k];
      }
      hide Own, Pending;
    }
  }

  lemma OpenOwnsNothing(pieces: seq<Piece>)
    requires pieces != [] && !EndsWhole(pieces)
    ensures Own(pieces) == Own(pieces[..|pieces| - 1])
  {
    var init, pc := pieces[..|pieces| - 1], pieces[|pieces| - 1];
    assert OwnOf(Pending(init), pc) == ([], []) by { hide Own; }
    hide OwnOf, Pending, EndsWhole;
    var own := Own(init);
    assert own.0 + [] == own.0 && own.1 + [] == own.1;
  }

  /**
   * Exactly when torn blocks go unread, for every file of whole and torn blocks: up to the last marker no
   * torn block has a whole line left but one glued to an earlier tear, each line that a tear is glued to is
   * read neither as a row nor as a minute, and a marker that a tear leaves last shows no minute. The reader
   * then has the rows and minutes of all whole blocks, without the first lines lost to the glue; otherwise
   * it has more.
   */
  lemma TornBlocksUnreadExactlyWhen(header: string, pieces: seq<Piece>)
    requires TornFile(header, pieces)
    ensures var r, own := Read(TornText(header, pieces)), Own(pieces);
            |own.0| <= |r.rows| && |own.1| <= |r.minutes| &&
            (NoTearRead(header, pieces) <==> r.rows == own.0 && r.minutes == own.1) &&
            (!NoTearRead(header, pieces) ==> |own.0| + |own.1| < |r.rows| + |r.minutes|)
  {
    var x := ExtentOf(pieces);
    ReadOfTornFile(header, pieces);
    GatheredOwn(header, pieces[..x.pieces]);
    OwnBeforeMark(pieces);
    assert pieces[..|pieces|] == pieces;
    NoMinuteShown(Nothing);
    hide Read, TornText, Gathered, NoTearShows, FinishedExtent, ShownMinute;
    assert Own(pieces) == Own(pieces[..x.pieces]);
    assert x.pieces == 0 ==> Own(pieces[..x.pieces]) == ([], []);
  }

  function Commas(s: string): nat { if s == "" then 0 else (if s[0] == ',' then 1 else 0) + Commas(s[1..]) }

  lemma {:induction false} GluedFields(p: string, row: string)
    ensures FieldCount(p + row) == Commas(p) + FieldCount(row)
    ensures Commas(p) == 0 <==> ',' !in p
    decreases |p|
  {
    if p == "" {
      assert p + row == row;
    } else {
      assert (p + row)[1..] == p[1..] + row;
      assert p == [p[0]] + p[1..];
      GluedFields(p[1..], row);
    }
  }

  /**
   * A line glued to a tear goes unread exactly if the two together have not the header's number of fields
   * (or are the header), or if they begin like an end line and show no minute.
   */
  lemma SilentExactlyWhen(header: string, pending: string, line: string)
    requires pending != ""
    ensures Silent(header, pending, line) <==>
            if "#END" <= pending + line then ShownMinute(pending + line) == []
            else Commas(pending) + FieldCount(line) != FieldCount(header) || pending + line == header
  {
    GluedFields(pending, line);
  }

  /** Glued to a row, a tear inside a first field makes a row of an instrument that does not exist. */
  lemma TornFieldMakesRow(header: string, pending: string, row: string)
    requires DataRow(header, row) && pending != "" && !("#END" <= pending + row) && pending + row != header
    ensures Silent(header, pending, row) <==> ',' in pending
    ensures ',' !in pending ==> Alone(header, pending + row) == Reading(Some(header), [pending + row], [])
  {
    GluedFields(pending, row);
  }

  /** A minute torn in its first field, then a whole minute: the day's rows begin with one that nobody wrote. */
  lemma TornFieldIsRead(header: string, torn: Piece, b: Block)
    requires TornFile(header, [torn, Piece(b, |b.rows| + 1, "")]) && torn.lines == 0 && b.rows != []
    requires var glued := torn.tail + b.rows[0];
             torn.tail != "" && ',' !in torn.tail && !("#END" <= glued) && glued != header
    ensures Read(header + "\n" + torn.tail + Join(BlockLines(b))) ==
            Reading(Some(header), [torn.tail + b.rows[0]] + b.rows[1..], [b.minute])
  {
    hide DataRow, Read, EndLine, Join, Alone, TornText, TornLines, Gathered;
    var pieces := [torn, Piece(b, |b.rows| + 1, "")];
    PendingOf(torn, pieces[1]);
    TextOf(header, torn, pieces[1]);
    assert pieces[..2] == pieces && pieces[..1] == [torn];
    ReadOfTornFile(header, pieces);
    assert ExtentOf(pieces) == Extent(2, "");
    NoMinuteShown(Gathered(header, pieces));
    assert Torn(header, pieces[1]);
    TornFieldMakesRow(header, torn.tail, b.rows[0]);
    GatheredTwo(header, torn, pieces[1]);
  }

  lemma GatheredTwo(header: string, torn: Piece, whole: Piece)
    requires TornFile(header, [torn, whole]) && torn.lines == 0
    ensures Gathered(header, [torn, whole]) == Gains(header, Pending([torn]), whole)
  {
    hide Alone, Torn;
    var pieces, none := [torn, whole], Reading(Some(header), [], []);
    assert pieces[..1] == [torn] && [torn][..0] == [];
    assert Gathered(header, []) == none && Gathered(header, [torn]) == Plus(none, Gains(header, "", torn)) == none;
    var g := Gains(header, Pending([torn]), whole);
    KeepsHeader(header, Pending([torn]) + BlockLines(whole.block)[0]);
    assert Plus(none, g) == g;
  }

  lemma PendingOf(torn: Piece, whole: Piece)
    requires torn.lines == 0 && whole.Whole() && whole.tail == ""
    ensures Pending([torn]) == torn.tail && Pending([torn, whole]) == ""
  {
    assert [torn][..0] == [] && [torn, whole][..1] == [torn];
    assert "" + torn.tail == torn.tail;
  }

  lemma TextOf(header: string, torn: Piece, whole: Piece)
    requires torn.lines == 0 && whole.Whole() && whole.tail == ""
    ensures TornText(header, [torn, whole]) == header + "\n" + torn.tail + Join(BlockLines(whole.block))
  {
    hide EndLine;
    var lines := BlockLines(whole.block);
    assert [torn, whole][..1] == [torn] && [torn][..0] == [];
    assert lines[..|lines|] == lines && BlockLines(torn.block)[..0] == [];
    assert torn.Text() == "" + torn.tail == torn.tail;
    assert whole.Text() == Join(lines) + "" == Join(lines);
    assert TornText(header, []) == header + "\n";
  }

  // ---- A torn header ----

  lemma {:induction false} RowsSkipped(header: string, r: Reading, rows: seq<string>)
    requires r.header.Some? && FieldCount(r.header.value) != FieldCount(header)
    requires forall t :: 0 <= t < |rows| ==> DataRow(header, rows[t])
    ensures ReadLines(r, rows) == r
  {
    if rows != [] {
      RowsSkipped(header, r, rows[..|rows| - 1]);
      assert DataRow(header, rows[|rows| - 1]);
    }
  }

  /** Under a header with another number of fields only the minutes of whole blocks are read. */
  lemma {:induction false} OnlyMinutes(header: string, wrong: string, bs: seq<Block>)
    requires WellFormed(header, bs) && FieldCount(wrong) != FieldCount(header)
    ensures ReadLines(Reading(Some(wrong), [], []), AllLines(bs)) == Reading(Some(wrong), [], MinutesOf(bs))
  {
    var none := Reading(Some(wrong), [], []);
    if bs != [] {
      var k := |bs| - 1;
      PrefixWellFormed(header, bs, k);
      OnlyMinutes(header, wrong, bs[..k]);
      var r := Reading(Some(wrong), [], MinutesOf(bs[..k]));
      hide WellFormed, DataRow, ReadLine, ReadLines, EndLine;
      ReadConcat(none, AllLines(bs[..k]), BlockLines(bs[k]));
      ReadConcat(r, bs[k].rows, [EndLine(bs[k])]);
      RowsSkipped(header, r, bs[k].rows);
      EndRead(r, bs[k]);
    }
  }

  /**
   * A write that tears the header in a new file: blocks follow without one, since the file is not empty, and
   * the first row glued to the tear is taken for the header. A tear behind the first field hides every row of
   * the day, while all its minutes are reported.
   */
  lemma TornHeaderHidesRows(header: string, torn: string, bs: seq<Block>)
    requires WellFormed(header, bs) && bs != [] && bs[0].rows != []
    requires torn <= header && ',' in torn
    ensures Read(torn + Join(AllLines(bs))) == Reading(Some(torn + bs[0].rows[0]), [], MinutesOf(bs))
  {
    hide DataRow, ReadLine, ReadLines, Body, SplitLines, LastMarked, EndLine;
    var row, lines := bs[0].rows[0], AllLines(bs);
    FirstRowFirst(bs);
    var rest := lines[1..];
    var wrong := torn + row;
    WrongHeader(header, torn, row);
    LinesOneLine(header, bs);
    assert AllOneLine([wrong] + rest) by { assert OneLine(lines[0]); }
    GluedJoin(torn, lines);
    BodyLines([wrong] + rest, "");
    assert Join([wrong] + rest) + "" == torn + Join(lines);
    assert [wrong] + rest + Unfinished("") == [wrong] + rest;
    LastIsEnd(bs);
    EndLineOneLine(bs[|bs| - 1]);
    assert [wrong] + rest == ([wrong] + rest[..|rest| - 1]) + [rest[|rest| - 1]];
    MarkedLast([wrong] + rest[..|rest| - 1], rest[|rest| - 1]);
    ReadUnder(header, wrong, row, bs);
  }

  lemma WrongHeader(header: string, torn: string, row: string)
    requires OneLine(header) && !("#END" <= header) && DataRow(header, row) && torn <= header && ',' in torn
    ensures torn + row != "" && !("#END" <= torn + row) && OneLine(torn + row)
    ensures FieldCount(torn + row) != FieldCount(header)
  {
    GluedFields(torn, row);
    if "#END" <= torn + row { MarkInFront(torn, row); }
  }

  lemma MarkInFront(a: string, b: string)
    requires "#END" <= a + b
    ensures if |a| >= 4 then "#END" <= a else ',' !in a
  {
    var mark := (a + b)[..4];
    if |a| >= 4 {
      assert mark == a[..4];
    } else {
      assert forall i :: 0 <= i < |a| ==> a[i] == mark[i];
    }
  }

  lemma {:induction false} FirstRowFirst(bs: seq<Block>)
    requires bs != [] && bs[0].rows != []
    ensures |AllLines(bs)| > 1 && AllLines(bs)[0] == bs[0].rows[0]
  {
    if |bs| > 1 { FirstRowFirst(bs[..|bs| - 1]); }
  }

  lemma LastIsEnd(bs: seq<Block>)
    requires bs != []
    ensures var lines := AllLines(bs); lines != [] && lines[|lines| - 1] == EndLine(bs[|bs| - 1])
  {
  }

  lemma ReadUnder(header: string, wrong: string, row: string, bs: seq<Block>)
    requires WellFormed(header, bs) && AllLines(bs) != [] && AllLines(bs)[0] == row && DataRow(header, row)
    requires wrong != "" && !("#END" <= wrong) && FieldCount(wrong) != FieldCount(header)
    ensures ReadLines(Nothing, [wrong] + AllLines(bs)[1..]) == Reading(Some(wrong), [], MinutesOf(bs))
  {
    var under, rest := Reading(Some(wrong), [], []), AllLines(bs)[1..];
    OnlyMinutes(header, wrong, bs);
    OneLineRead(Nothing, wrong);
    ReadConcat(Nothing, [wrong], rest);
    RowsSkipped(header, under, [row]);
    ReadConcat(under, [row], rest);
    assert [row] + rest == AllLines(bs);
  }
}
