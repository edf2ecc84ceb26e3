/** Cutting the stream file anywhere. */
module StreamPrefix {
  import opened Basics
  import opened StreamText
  import opened StreamFile

  /** A data row: one line, not an end marker, with the header's number of fields and not the header again. */
  ghost predicate DataRow(header: string, row: string) {
    OneLine(row) && row != "" && !("#END" <= row) && row != header && FieldCount(row) == FieldCount(header)
  }

  ghost predicate WellFormed(header: string, bs: seq<Block>) {
    OneLine(header) && header != "" && !("#END" <= header) &&
    forall k, t :: 0 <= k < |bs| && 0 <= t < |bs[k].rows| ==> DataRow(header, bs[k].rows[t])
  }

  // ---- End lines ----

  lemma DigitsPlain(n: nat)
    ensures Digits(n) != "" && forall i :: 0 <= i < |Digits(n)| ==> IsDigit(Digits(n)[i])
  {
    DigitsValue(n);
  }

  lemma EndLineOneLine(b: Block)
    ensures OneLine(EndLine(b)) && MARKER <= EndLine(b) && "#END" <= EndLine(b)
  {
    DigitsPlain(b.minute);
    DigitsPlain(|b.rows|);
  }

  /** The minute that a cut end line still shows, `n` being how much is left behind the marker. */
  function Seen(minute: nat, n: nat): seq<nat> {
    if n == 0 then []
    else if n >= |Digits(minute)| then [minute]
    else
      DigitsPlain(minute);
      [Value(Digits(minute)[..n])]
  }

  lemma {:induction false} NoComma(s: string)
    requires forall i :: 0 <= i < |s| ==> s[i] != ','
    ensures FirstField(s) == s
  {
    if s != "" { NoComma(s[1..]); }
  }

  lemma SecondOfEnd(word: string, rest: string)
    requires (forall i :: 0 <= i < |word| ==> IsDigit(word[i])) && (rest == "" || rest[0] == ' ')
    requires word == "" ==> rest == ""
    ensures SecondWord(MARKER + word + rest) == word
  {
    var s := MARKER + word + rest;
    assert s == "#END" + (" " + word + rest);
    WordOf("#END", " " + word + rest);
    var tail := " " + word + rest;
    assert SkipSpaces(s) == s;
    assert tail[1..] == word + rest;
    if word == "" { assert tail == " "; assert SkipSpaces(tail) == SkipSpaces(""); }
    else { assert SkipSpaces(tail) == SkipSpaces(word + rest) == word + rest; }
    WordOf(word, rest);
  }

  /** Reading an end line, whole or cut behind its marker, adds the minute it still shows. */
  lemma ReadEndLine(r: Reading, b: Block, last: string)
    requires MARKER <= last <= EndLine(b)
    ensures ReadLine(r, last) == r.(minutes := r.minutes + Seen(b.minute, |last| - 5))
  {
    var d, n := Digits(b.minute), |last| - 5;
    DigitsPlain(b.minute);
    DigitsPlain(|b.rows|);
    DigitsValue(b.minute);
    var word := if n <= |d| then d[..n] else d;
    var rest := if n <= |d| then "" else (" " + Digits(|b.rows|))[..n - |d|];
    assert last == EndLine(b)[..|last|];
    assert EndLine(b) == MARKER + (d + (" " + Digits(|b.rows|)));
    assert last == MARKER + word + rest;
    assert forall i :: 0 <= i < |last| ==> last[i] != ',';
    NoComma(last);
    SecondOfEnd(word, rest);
    assert "#END" <= last by { assert last[..4] == "#END"; }
    if n > 0 { assert AllDigits(word); }
    if n >= |d| { assert word == d; }
  }

  // ---- Reading whole blocks ----

  lemma {:induction false} ReadConcat(r: Reading, a: seq<string>, b: seq<string>)
    ensures ReadLines(r, a + b) == ReadLines(ReadLines(r, a), b)
  {
    if b == [] {
      assert a + b == a;
    } else {
      assert (a + b)[..|a + b| - 1] == a + b[..|b| - 1];
      ReadConcat(r, a, b[..|b| - 1]);
    }
  }

  lemma {:induction false} ReadRows(r: Reading, header: string, rows: seq<string>)
    requires r.header == Some(header)
    requires forall t :: 0 <= t < |rows| ==> DataRow(header, rows[t])
    ensures ReadLines(r, rows) == r.(rows := r.rows + rows)
  {
    if rows == [] {
      assert r.rows + rows == r.rows;
    } else {
      ReadRows(r, header, rows[..|rows| - 1]);
      assert rows == rows[..|rows| - 1] + [rows[|rows| - 1]];
    }
  }

  function After(header: string, bs: seq<Block>): Reading { Reading(Some(header), RowsOf(bs), MinutesOf(bs)) }

  lemma PrefixWellFormed(header: string, bs: seq<Block>, k: nat)
    requires WellFormed(header, bs) && k <= |bs|
    ensures WellFormed(header, bs[..k])
    ensures k < |bs| ==> forall t :: 0 <= t < |bs[k].rows| ==> DataRow(header, bs[k].rows[t])
  {
  }

  /** An end line that still shows its whole minute. */
  lemma SeenWhole(b: Block, n: nat)
    requires n >= |EndLine(b)| - 5
    ensures Seen(b.minute, n) == [b.minute]
  {
    DigitsPlain(b.minute);
  }

  /** Reading the header and whole blocks gives their rows and minutes, in order. */
  lemma {:induction false} ReadBlocks(header: string, bs: seq<Block>)
    requires WellFormed(header, bs)
    ensures ReadLines(Nothing, [header] + AllLines(bs)) == After(header, bs)
  {
    if bs == [] {
      ReadHeader(header);
      assert [header] + AllLines(bs) == [header];
    } else {
      var k := |bs| - 1;
      PrefixWellFormed(header, bs, k);
      ReadBlocks(header, bs[..k]);
      ReadNextBlock(header, bs, bs[..k], bs[k]);
    }
  }

  lemma ReadNextBlock(header: string, bs: seq<Block>, init: seq<Block>, b: Block)
    requires bs == init + [b]
    requires forall t :: 0 <= t < |b.rows| ==> DataRow(header, b.rows[t])
    requires ReadLines(Nothing, [header] + AllLines(init)) == After(header, init)
    ensures ReadLines(Nothing, [header] + AllLines(bs)) == After(header, bs)
  {
    hide DataRow, ReadLines, Seen, EndLine;
    EndLineOneLine(b);
    ReadOneMore(header, init, b, EndLine(b));
    SeenWhole(b, |EndLine(b)| - 5);
    assert bs[..|bs| - 1] == init;
    assert [header] + AllLines(bs) == [header] + AllLines(init) + b.rows + [EndLine(b)];
  }

  lemma ReadHeader(header: string)
    requires header != "" && !("#END" <= header)
    ensures ReadLines(Nothing, [header]) == After(header, [])
  {
    assert [header][..0] == [] && ReadLines(Nothing, []) == Nothing;
  }

  /** Whole blocks, then a block whose end line may be cut: its rows count, its minute as far as it shows. */
  lemma ReadOneMore(header: string, init: seq<Block>, b: Block, last: string)
    requires ReadLines(Nothing, [header] + AllLines(init)) == After(header, init)
    requires forall t :: 0 <= t < |b.rows| ==> DataRow(header, b.rows[t])
    requires MARKER <= last <= EndLine(b)
    ensures ReadLines(Nothing, [header] + AllLines(init) + b.rows + [last]) ==
            Reading(Some(header), RowsOf(init) + b.rows, MinutesOf(init) + Seen(b.minute, |last| - 5))
  {
    var lines := [header] + AllLines(init);
    ReadConcat(Nothing, lines, b.rows);
    ReadRows(After(header, init), header, b.rows);
    ReadConcat(Nothing, lines + b.rows, [last]);
    var r := Reading(Some(header), RowsOf(init) + b.rows, MinutesOf(init));
    assert [last][..0] == [] && ReadLines(r, []) == r;
    ReadEndLine(r, b, last);
  }

  // ---- Where a cut falls ----

  /** Line `i` of the blocks' lines: which block it belongs to and which of its lines it is. */
  lemma {:induction false} Locate(bs: seq<Block>, i: nat) returns (k: nat, t: nat)
    requires i < |AllLines(bs)|
    ensures k < |bs| && t <= |bs[k].rows|
    ensures AllLines(bs)[..i] == AllLines(bs[..k]) + bs[k].rows[..t]
    ensures AllLines(bs)[i] == BlockLines(bs[k])[t]
  {
    var init := bs[..|bs| - 1];
    if i < |AllLines(init)| {
      k, t := Locate(init, i);
      assert init[..k] == bs[..k];
      assert AllLines(bs)[..i] == AllLines(init)[..i];
    } else {
      k, t := |bs| - 1, i - |AllLines(init)|;
      assert BlockLines(bs[k])[..t] == bs[k].rows[..t];
      assert AllLines(bs)[..i] == AllLines(init) + BlockLines(bs[k])[..t];
    }
  }

  lemma {:induction false} LinesOneLine(header: string, bs: seq<Block>)
    requires WellFormed(header, bs)
    ensures AllOneLine(AllLines(bs))
  {
    if bs != [] {
      var k := |bs| - 1;
      PrefixWellFormed(header, bs, k);
      LinesOneLine(header, bs[..k]);
      EndLineOneLine(bs[k]);
      forall t | 0 <= t < |BlockLines(bs[k])| ensures OneLine(BlockLines(bs[k])[t]) {
        if t < |bs[k].rows| { assert DataRow(header, bs[k].rows[t]); }
      }
    }
  }

  lemma {:induction false} UnmarkedTail(lines: seq<string>, tail: seq<string>)
    requires lines != [] && forall t :: 0 <= t < |tail| ==> !(MARKER <= tail[t])
    ensures LastMarked(lines + tail) == LastMarked(lines)
  {
    if tail == [] {
      assert lines + tail == lines;
    } else {
      assert (lines + tail)[..|lines + tail| - 1] == lines + tail[..|tail| - 1];
      UnmarkedTail(lines, tail[..|tail| - 1]);
    }
  }

  lemma MarkedAtEnd(header: string, bs: seq<Block>)
    ensures LastMarked([header] + AllLines(bs)) == if bs == [] then -1 else |AllLines(bs)|
  {
    if bs != [] {
      EndLineOneLine(bs[|bs| - 1]);
      var lines := [header] + AllLines(bs);
      assert lines[|lines| - 1] == EndLine(bs[|bs| - 1]);
    }
  }

  lemma MarkerBeginsEnd(row: string)
    ensures MARKER <= row ==> "#END" <= row
  {
    if MARKER <= row { assert row[..5][..4] == row[..4] == "#END"; }
  }

  /** Where the end line of block `k` starts in the file. */
  function EndStart(header: string, bs: seq<Block>, k: nat): nat
    requires k < |bs|
  {
    |FileText(header, bs[..k])| + |Join(bs[k].rows)|
  }

  lemma LengthOfLines(header: string, bs: seq<Block>, k: nat, t: nat)
    requires k < |bs| && t <= |bs[k].rows|
    ensures |Join([header] + (AllLines(bs[..k]) + bs[k].rows[..t]))| ==
            |FileText(header, bs[..k])| + |Join(bs[k].rows[..t])|
  {
    assert [header] + (AllLines(bs[..k]) + bs[k].rows[..t]) == ([header] + AllLines(bs[..k])) + bs[k].rows[..t];
    JoinConcat([header] + AllLines(bs[..k]), bs[k].rows[..t]);
  }

  // ---- Main results ----

  /** What a reader gets from a cut behind `k` visible end markers. */
  ghost predicate ReadsThrough(header: string, bs: seq<Block>, k: nat, c: nat, r: Reading) {
    k <= |bs| && r.rows == RowsOf(bs[..k]) &&
    (k == 0 ==> r.minutes == []) &&
    (k > 0 ==> var from := EndStart(header, bs, k - 1) + 5;
               from <= c && r.minutes == MinutesOf(bs[..k - 1]) + Seen(bs[k - 1].minute, c - from)) &&
    (k < |bs| ==> c < EndStart(header, bs, k) + 5)
  }

  lemma FileGrows(header: string, bs: seq<Block>, k: nat)
    requires k < |bs|
    ensures |FileText(header, bs[..k + 1])| == EndStart(header, bs, k) + |EndLine(bs[k])| + 1
  {
    var lines, b := [header] + AllLines(bs[..k]), bs[k];
    assert bs[..k + 1][..k] == bs[..k];
    assert [header] + AllLines(bs[..k + 1]) == lines + b.rows + [EndLine(b)];
    JoinConcat(lines, b.rows);
    JoinConcat(lines + b.rows, [EndLine(b)]);
    assert Join([EndLine(b)]) == EndLine(b) + "\n" + Join([]);
  }

  lemma FileOfWhole(header: string, bs: seq<Block>, k: nat)
    requires 0 < k <= |bs|
    ensures |FileText(header, bs[..k])| == EndStart(header, bs, k - 1) + |EndLine(bs[k - 1])| + 1
  {
    FileGrows(header, bs, k - 1);
  }

  /** A cut before the marker of block `k`: exactly the `k` whole blocks before it are read. */
  lemma CutBeforeMarker(header: string, bs: seq<Block>, k: nat, tail: seq<string>, c: nat, text: string)
    requires WellFormed(header, bs) && k <= |bs|
    requires forall t :: 0 <= t < |tail| ==> !(MARKER <= tail[t])
    requires var all := [header] + AllLines(bs[..k]) + tail; SplitLines(Body(text)) == all[..LastMarked(all) + 1]
    requires |FileText(header, bs[..k])| <= c && (k < |bs| ==> c < EndStart(header, bs, k) + 5)
    ensures ReadsThrough(header, bs, k, c, Read(text))
  {
    hide WellFormed, Body, SplitLines, Join, AllLines, EndLine, Seen, RowsOf;
    var lines := [header] + AllLines(bs[..k]);
    UnmarkedTail(lines, tail);
    MarkedAtEnd(header, bs[..k]);
    PrefixWellFormed(header, bs, k);
    ReadBlocks(header, bs[..k]);
    if bs[..k] == [] {
      assert k == 0 && (lines + tail)[..0] == [];
      NothingRead(header, bs, c, text);
    } else {
      assert (lines + tail)[..|lines|] == lines;
      FileOfWhole(header, bs, k);
      EndLineOneLine(bs[k - 1]);
      SeenWhole(bs[k - 1], c - EndStart(header, bs, k - 1) - 5);
      assert bs[..k][..k - 1] == bs[..k - 1];
    }
  }

  lemma NothingRead(header: string, bs: seq<Block>, c: nat, text: string)
    requires SplitLines(Body(text)) == [] && (bs != [] ==> c < EndStart(header, bs, 0) + 5)
    ensures ReadsThrough(header, bs, 0, c, Read(text))
  {
    assert Read(text) == Nothing;
  }

  /** A cut behind the marker of block `k`: its rows are read too, its minute as far as it shows. */
  lemma CutBehindMarker(header: string, bs: seq<Block>, k: nat, last: string, text: string)
    requires WellFormed(header, bs) && k < |bs| && MARKER <= last <= EndLine(bs[k])
    requires var all := [header] + AllLines(bs[..k]) + bs[k].rows + [last];
             SplitLines(Body(text)) == all[..LastMarked(all) + 1]
    ensures ReadsThrough(header, bs, k + 1, EndStart(header, bs, k) + |last|, Read(text))
  {
    hide Join, Body, SplitLines, Seen, EndLine, RowsOf, MinutesOf, AllLines;
    var init, b := bs[..k], bs[k];
    var all := [header] + AllLines(init) + b.rows + [last];
    PrefixWellFormed(header, bs, k);
    FileGrows(header, bs, k);
    hide WellFormed;
    ReadBlocks(header, init);
    ReadOneMore(header, init, b, last);
    assert LastMarked(all) == |all| - 1 && all[..|all|] == all;
    hide LastMarked, ReadLines;
    ReadThroughOneMore(header, bs, k, last, Read(text));
  }

  lemma ReadThroughOneMore(header: string, bs: seq<Block>, k: nat, last: string, r: Reading)
    requires k < |bs| && 5 <= |last| <= |EndLine(bs[k])|
    requires r.rows == RowsOf(bs[..k]) + bs[k].rows && r.minutes == MinutesOf(bs[..k]) + Seen(bs[k].minute, |last| - 5)
    ensures ReadsThrough(header, bs, k + 1, EndStart(header, bs, k) + |last|, r)
  {
    hide Join, EndLine, Seen, MinutesOf, AllLines;
    assert bs[..k + 1][..k] == bs[..k];
    FileGrows(header, bs, k);
  }

  /**
   * For every cut of the file there is a number of blocks, those whose end marker is still
   * visible, such that exactly their rows are read, in order and never part of a block. Their
   * minutes are read too, the last one as far as its digits are behind the cut.
   */
  lemma ReadOfPrefix(header: string, bs: seq<Block>, c: nat) returns (k: nat)
    requires WellFormed(header, bs) && c <= |FileText(header, bs)|
    ensures ReadsThrough(header, bs, k, c, Read(FileText(header, bs)[..c]))
  {
    var lines, text := [header] + AllLines(bs), FileText(header, bs)[..c];
    FileOneLine(header, bs);
    hide WellFormed, ReadsThrough, Read, Body, SplitLines, LastMarked, AllLines, Join, AllOneLine, OneLine, EndLine;
    var i, last := PrefixOfJoin(lines, c);
    AllOneLineUpTo(lines, i);
    BodyLines(lines[..i], last);
    if i == 0 {
      k := 0;
      CutInHeader(header, bs, last, lines[..i], text);
    } else if i == |lines| {
      k := |bs|;
      WholeFile(header, bs);
      CutBeforeMarker(header, bs, k, [], c, text);
    } else {
      LinesUpTo(header, AllLines(bs), i);
      var k0, t := Locate(bs, i - 1);
      k := CutInBlock(header, bs, k0, t, last, lines[..i], text);
    }
  }

  lemma LinesUpTo(header: string, rest: seq<string>, i: nat)
    requires 0 < i <= |rest|
    ensures ([header] + rest)[..i] == [header] + rest[..i - 1] && ([header] + rest)[i] == rest[i - 1]
  {
  }

  lemma WholeFile(header: string, bs: seq<Block>)
    ensures bs[..|bs|] == bs
    ensures var lines := [header] + AllLines(bs);
            lines[..|lines|] + Unfinished("") == lines + [] == lines
  {
  }

  lemma FileOneLine(header: string, bs: seq<Block>)
    requires WellFormed(header, bs)
    ensures AllOneLine([header] + AllLines(bs))
  {
    LinesOneLine(header, bs);
  }

  lemma AllOneLineUpTo(lines: seq<string>, i: nat)
    requires AllOneLine(lines) && i <= |lines|
    ensures AllOneLine(lines[..i])
  {
  }

  lemma CutInHeader(header: string, bs: seq<Block>, last: string, none: seq<string>, text: string)
    requires WellFormed(header, bs) && last <= header && none == [] && text == Join(none) + last
    requires var all := none + Unfinished(last); SplitLines(Body(text)) == all[..LastMarked(all) + 1]
    ensures ReadsThrough(header, bs, 0, |text|, Read(text))
  {
    HeaderCut(header, bs, last, text);
  }

  lemma CutInBlock(header: string, bs: seq<Block>, k0: nat, t: nat, last: string, full: seq<string>, text: string)
    returns (k: nat)
    requires WellFormed(header, bs) && k0 < |bs| && t <= |bs[k0].rows| && last <= BlockLines(bs[k0])[t]
    requires full == [header] + (AllLines(bs[..k0]) + bs[k0].rows[..t])
    requires text == Join(full) + last
    requires var all := full + Unfinished(last); SplitLines(Body(text)) == all[..LastMarked(all) + 1]
    ensures ReadsThrough(header, bs, k, |text|, Read(text))
  {
    hide WellFormed, ReadsThrough, Read, Body, SplitLines, LastMarked, AllLines, Join, FieldCount, EndLine;
    var b := bs[k0];
    LengthOfLines(header, bs, k0, t);
    if t == |b.rows| && MARKER <= last {
      k := k0 + 1;
      assert b.rows[..t] == b.rows && Unfinished(last) == [last];
      assert full + [last] == [header] + AllLines(bs[..k0]) + b.rows + [last];
      CutBehindMarker(header, bs, k0, last, text);
    } else {
      k := k0;
      var tail := b.rows[..t] + Unfinished(last);
      assert full + Unfinished(last) == [header] + AllLines(bs[..k0]) + tail;
      TailUnmarked(header, bs, k0, t, last);
      CutBeforeMarker(header, bs, k0, tail, |text|, text);
    }
  }

  lemma HeaderCut(header: string, bs: seq<Block>, last: string, text: string)
    requires WellFormed(header, bs) && last <= header && SplitLines(Body(text)) == []
    ensures ReadsThrough(header, bs, 0, |last|, Read(text))
  {
    assert Read(text) == Nothing;
    if bs != [] {
      assert [header] + AllLines(bs[..0]) == [header];
      assert Join([header]) == header + "\n" + Join([]);
    }
  }

  lemma TailUnmarked(header: string, bs: seq<Block>, k: nat, t: nat, last: string)
    requires WellFormed(header, bs) && k < |bs| && t <= |bs[k].rows| && last <= BlockLines(bs[k])[t]
    requires !(t == |bs[k].rows| && MARKER <= last)
    ensures var tail := bs[k].rows[..t] + Unfinished(last);
            forall j :: 0 <= j < |tail| ==> !(MARKER <= tail[j])
    ensures |Join(bs[k].rows[..t])| + |last| < |Join(bs[k].rows)| + 5
  {
    var rows := bs[k].rows;
    forall j | 0 <= j < t ensures !(MARKER <= rows[j]) {
      assert DataRow(header, rows[j]);
      MarkerBeginsEnd(rows[j]);
    }
    if t < |rows| {
      assert DataRow(header, rows[t]);
      MarkerBeginsEnd(rows[t]);
      OffsetNext(rows, t);
      TextUpTo(rows, "", t + 1);
    } else {
      assert rows[..t] == rows;
      EndLineOneLine(bs[k]);
    }
  }
}
