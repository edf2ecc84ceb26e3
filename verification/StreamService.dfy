/** The stream's writer, reader and merge. */
module StreamService {
  import opened Basics
  import opened StreamText
  import opened StreamFile
  import opened StreamPrefix

  method WriteRows(rows: seq<string>) returns (buffer: string)
    ensures buffer == Join(rows)
  {
    buffer := "";
    for i := 0 to |rows|
      invariant buffer == Join(rows[..i])
    {
      assert rows[..i + 1] == rows[..i] + [rows[i]];
      JoinConcat(rows[..i], [rows[i]]);
      assert Join([rows[i]]) == rows[i] + "\n" + Join([]);
      buffer := buffer + rows[i] + "\n";
    }
    assert rows[..|rows|] == rows;
  }

  lemma BlockText(block: Block)
    ensures Join(BlockLines(block)) == Join(block.rows) + EndLine(block) + "\n"
  {
    hide EndLine;
    var e := EndLine(block);
    JoinConcat(block.rows, [e]);
    assert Join([e]) == e + "\n" + Join([]);
    assert Join(block.rows) + (e + "\n") == Join(block.rows) + e + "\n";
  }

  /** One append-only stream file. */
  class StreamLog {
    var text: string

    constructor ()
      ensures text == ""
    {
      text := "";
    }

    /**
     * Append one closed minute: the header first if the file is new, then the rows and the end line. A disk
     * with room for fewer characters takes the beginning of them and the call raises.
     */
    method AppendBlock(header: string, block: Block, room: nat) returns (raised: bool)
      modifies this
      ensures var block := (if old(text) == "" then header + "\n" else "") + Join(BlockLines(block));
              raised == (room < |block|) && text == old(text) + block[..MinInt(room, |block|)]
    {
      hide Join, EndLine;
      var body := WriteRows(block.rows);
      var front := if text == "" then header + "\n" else "";
      var buffer := front + body + EndLine(block) + "\n";
      BlockText(block);
      assert buffer == front + Join(BlockLines(block));
      raised := room < |buffer|;
      text := text + if raised then buffer[..room] else buffer;
      assert buffer[..|buffer|] == buffer;
    }

    /** Every row of every complete block, and the blocks' minutes. */
    method ReadBlocks() returns (rows: seq<string>, minutes: seq<nat>)
      ensures rows == Read(text).rows && minutes == Read(text).minutes
    {
      var lines := SplitLines(Body(text));
      var header: Option<string> := None;
      rows, minutes := [], [];
      for i := 0 to |lines|
        invariant Reading(header, rows, minutes) == ReadLines(Nothing, lines[..i])
      {
        var line := lines[i];
        assert lines[..i + 1][..i] == lines[..i];
        if line == "" {
        } else if "#END" <= line {
          var word := SecondWord(FirstField(line));
          if AllDigits(word) {
            minutes := minutes + [Value(word)];
          }
        } else if header.None? {
          header := Some(line);
        } else if line != header.value && FieldCount(line) == FieldCount(header.value) {
          rows := rows + [line];
        }
      }
      assert lines[..|lines|] == lines;
    }
  }

  /** Appending a block to a file of blocks gives the file of one more block. */
  lemma AppendGrows(header: string, bs: seq<Block>, b: Block)
    ensures FileText(header, bs + [b]) == FileText(header, bs) + Join(BlockLines(b))
    ensures FileText(header, []) == header + "\n"
  {
    assert (bs + [b])[..|bs|] == bs;
    assert [header] + AllLines(bs + [b]) == ([header] + AllLines(bs)) + BlockLines(b);
    JoinConcat([header] + AllLines(bs), BlockLines(b));
    assert [header] + AllLines([]) == [header];
    assert Join([header]) == header + "\n" + Join([]);
  }

  /** The whole file reads back as every row and every minute that was appended. */
  lemma WholeFileRoundTrip(header: string, bs: seq<Block>)
    requires WellFormed(header, bs)
    ensures Read(FileText(header, bs)).rows == RowsOf(bs) && Read(FileText(header, bs)).minutes == MinutesOf(bs)
  {
    var text := FileText(header, bs);
    assert text[..|text|] == text;
    var k := ReadOfPrefix(header, bs, |text|);
    hide WellFormed, Read, FileText, Join, EndLine, EndStart, Seen, RowsOf;
    if k < |bs| {
      EndLineLength(bs[k]);
      EndWithinFile(header, bs, k);
    }
    assert bs[..k] == bs;
    if k > 0 {
      FileOfWhole(header, bs, k);
      SeenWhole(bs[k - 1], |text| - EndStart(header, bs, k - 1) - 5);
    }
  }

  lemma EndLineLength(b: Block)
    ensures |EndLine(b)| >= 5
  {
    EndLineOneLine(b);
  }

  lemma {:induction false} EndWithinFile(header: string, bs: seq<Block>, k: nat)
    requires k < |bs|
    ensures EndStart(header, bs, k) + |EndLine(bs[k])| < |FileText(header, bs)|
    decreases |bs| - k
  {
    FileGrows(header, bs, k);
    if k + 1 < |bs| {
      EndWithinFile(header, bs, k + 1);
    } else {
      assert bs[..k + 1] == bs;
    }
  }

  /** A cut between the marker of an end line and the last digit of its minute. */
  ghost predicate HidesDigits(header: string, bs: seq<Block>, j: nat, c: nat)
    requires j < |bs|
  {
    EndStart(header, bs, j) + 5 <= c < EndStart(header, bs, j) + 5 + |Digits(bs[j].minute)|
  }

  /** Such a cut shows: it leaves some digit, or the block has rows that are read without their minute. */
  ghost predicate SpoilsMinute(header: string, bs: seq<Block>, j: nat, c: nat)
    requires j < |bs|
  {
    HidesDigits(header, bs, j, c) && (c > EndStart(header, bs, j) + 5 || bs[j].rows != [])
  }

  /** A reading that is that of a whole number of blocks. */
  ghost predicate ReadsWhole(bs: seq<Block>, r: Reading) {
    exists k :: 0 <= k <= |bs| && r.rows == RowsOf(bs[..k]) && r.minutes == MinutesOf(bs[..k])
  }

  lemma LastBlock(bs: seq<Block>, k: nat)
    requires 0 < k <= |bs|
    ensures RowsOf(bs[..k]) == RowsOf(bs[..k - 1]) + bs[k - 1].rows
    ensures MinutesOf(bs[..k]) == MinutesOf(bs[..k - 1]) + [bs[k - 1].minute]
  {
    assert bs[..k][..k - 1] == bs[..k - 1];
  }

  lemma {:induction false} MinutesCount(bs: seq<Block>)
    ensures |MinutesOf(bs)| == |bs|
  {
    if bs != [] { MinutesCount(bs[..|bs| - 1]); }
  }

  lemma EndLineShowsMinute(b: Block)
    ensures |EndLine(b)| >= 5 + |Digits(b.minute)|
  {
  }

  /** End lines follow one another. */
  lemma {:induction false} EndsFollow(header: string, bs: seq<Block>, j: nat, k: nat)
    requires j < k < |bs|
    ensures EndStart(header, bs, j) + |EndLine(bs[j])| < EndStart(header, bs, k)
    decreases k
  {
    hide Join, EndLine, AllLines;
    FileGrows(header, bs, k - 1);
    if j < k - 1 { EndsFollow(header, bs, j, k - 1); }
  }

  /** A cut inside the minute of block `j` is behind exactly `j + 1` visible markers. */
  lemma MarkersBefore(header: string, bs: seq<Block>, j: nat, c: nat, k: nat)
    requires j < |bs| && HidesDigits(header, bs, j, c) && k <= |bs|
    requires (k > 0 ==> EndStart(header, bs, k - 1) + 5 <= c) && (k < |bs| ==> c < EndStart(header, bs, k) + 5)
    ensures k == j + 1
  {
    hide EndStart, EndLine;
    EndLineShowsMinute(bs[j]);
    if k < j { EndsFollow(header, bs, k, j); }
    if k > j + 1 { EndsFollow(header, bs, j, k - 1); }
  }

  /** Some but not all digits of a number never make up that number. */
  lemma CutDigitsDiffer(minute: nat, n: nat)
    requires 0 < n < |Digits(minute)|
    ensures Seen(minute, n) != [minute]
  {
    CutNumber(minute, Digits(minute)[..n]);
    assert minute == 0 ==> |Digits(minute)| == 1;
  }

  lemma SpoiltIsNotWhole(bs: seq<Block>, j: nat, n: nat, r: Reading)
    requires j < |bs| && n < |Digits(bs[j].minute)| && (n > 0 || bs[j].rows != [])
    requires r.rows == RowsOf(bs[..j + 1]) && r.minutes == MinutesOf(bs[..j]) + Seen(bs[j].minute, n)
    ensures !ReadsWhole(bs, r)
  {
    var next := j + 1;
    LastBlock(bs, next);
    MinutesCount(bs[..j]);
    if n > 0 { CutDigitsDiffer(bs[j].minute, n); }
    hide RowsOf, MinutesOf;
    forall k | 0 <= k <= |bs| ensures !(r.rows == RowsOf(bs[..k]) && r.minutes == MinutesOf(bs[..k])) {
      MinutesCount(bs[..k]);
      if n == 0 {
        assert k == j ==> |RowsOf(bs[..next])| > |RowsOf(bs[..k])|;
      } else {
        assert |Seen(bs[j].minute, n)| == 1;
        assert k == next ==> r.minutes[j] != bs[j].minute;
      }
    }
  }

  /** Rows and minutes are those of a whole number of blocks exactly unless the cut spoils some minute. */
  lemma ExactOutsideMinutes(header: string, bs: seq<Block>, c: nat)
    requires WellFormed(header, bs) && c <= |FileText(header, bs)|
    ensures ReadsWhole(bs, Read(FileText(header, bs)[..c])) <==>
            forall j :: 0 <= j < |bs| ==> !SpoilsMinute(header, bs, j, c)
  {
    var r := Read(FileText(header, bs)[..c]);
    var k := ReadOfPrefix(header, bs, c);
    hide WellFormed, Read, FileText, EndStart, RowsOf, MinutesOf, EndLine, Digits;
    if j :| 0 <= j < |bs| && SpoilsMinute(header, bs, j, c) {
      MarkersBefore(header, bs, j, c, k);
      SpoiltIsNotWhole(bs, j, c - EndStart(header, bs, j) - 5, r);
    } else {
      UnspoiltIsWhole(header, bs, k, c, r);
    }
  }

  lemma UnspoiltIsWhole(header: string, bs: seq<Block>, k: nat, c: nat, r: Reading)
    requires ReadsThrough(header, bs, k, c, r) && forall j :: 0 <= j < |bs| ==> !SpoilsMinute(header, bs, j, c)
    ensures ReadsWhole(bs, r)
  {
    hide EndStart, Digits;
    if k > 0 {
      assert !SpoilsMinute(header, bs, k - 1, c);
      LastBlock(bs, k);
      DigitsPlain(bs[k - 1].minute);
      if HidesDigits(header, bs, k - 1, c) {
        assert r.rows == RowsOf(bs[..k - 1]) && r.minutes == MinutesOf(bs[..k - 1]);
      } else {
        assert r.rows == RowsOf(bs[..k]) && r.minutes == MinutesOf(bs[..k]);
      }
    } else {
      assert r.rows == RowsOf(bs[..0]) && r.minutes == MinutesOf(bs[..0]);
    }
  }

  ghost predicate RisingBlocks(bs: seq<Block>) {
    forall i, j :: 0 <= i < j < |bs| ==> bs[i].minute < bs[j].minute
  }

  /**
   * A reader never believes a minute is there before its rows are: whatever minute it reports
   * from a cut file, every block up to that minute has been read whole.
   */
  lemma NeverAheadOfRows(header: string, bs: seq<Block>, c: nat)
    requires WellFormed(header, bs) && c <= |FileText(header, bs)| && RisingBlocks(bs)
    ensures var r := Read(FileText(header, bs)[..c]);
            exists k :: 0 <= k <= |bs| && r.rows == RowsOf(bs[..k]) &&
                        forall m, j :: m in r.minutes && 0 <= j < |bs| && bs[j].minute <= m ==> j < k
  {
    var r := Read(FileText(header, bs)[..c]);
    var k := ReadOfPrefix(header, bs, c);
    hide WellFormed, RisingBlocks, Read, FileText, EndStart, RowsOf, MinutesOf, Seen;
    forall m, j | m in r.minutes && 0 <= j < |bs| && bs[j].minute <= m ensures j < k {
      ReportedIsWhole(bs, k, c - EndStart(header, bs, k - 1) - 5, m, j);
    }
  }

  lemma ReportedIsWhole(bs: seq<Block>, k: nat, n: nat, m: nat, j: nat)
    requires RisingBlocks(bs) && 0 < k <= |bs| && j < |bs| && bs[j].minute <= m
    requires m in MinutesOf(bs[..k - 1]) + Seen(bs[k - 1].minute, n)
    ensures j < k
  {
    hide MinutesOf, Seen;
    if m in MinutesOf(bs[..k - 1]) {
      MinutesAreBlocks(bs[..k - 1], m);
    } else {
      SeenIsNoLater(bs[k - 1].minute, n, m);
    }
  }

  lemma {:induction false} MinutesAreBlocks(bs: seq<Block>, m: nat)
    requires m in MinutesOf(bs)
    ensures exists i :: 0 <= i < |bs| && bs[i].minute == m
  {
    var last := |bs| - 1;
    if bs[last].minute != m {
      MinutesAreBlocks(bs[..last], m);
      var i :| 0 <= i < last && bs[..last][i].minute == m;
      assert bs[i].minute == m;
    }
  }

  lemma SeenIsNoLater(minute: nat, n: nat, m: nat)
    requires m in Seen(minute, n)
    ensures m <= minute
  {
    if n < |Digits(minute)| { CutNumber(minute, Digits(minute)[..n]); }
  }

  // ---- The day from the archive and the stream ----

  datatype Bar = Bar(key: string, minute: Option<int>, content: string)

  predicate Has(bars: seq<Bar>, key: string, minute: Option<int>) {
    exists i :: 0 <= i < |bars| && bars[i].key == key && bars[i].minute == minute
  }

  /** The stream's bars that are added to `have`: the first of each instrument and minute not there yet. */
  function Missing(have: seq<Bar>, stream: seq<Bar>): seq<Bar> {
    if stream == [] then []
    else
      var before, bar := Missing(have, stream[..|stream| - 1]), stream[|stream| - 1];
      if Has(have + before, bar.key, bar.minute) then before else before + [bar]
  }

  /** `stream_day`'s merge: archived rows, then the stream rows of instruments and minutes they lack. */
  method MergeStream(archived: seq<Bar>, stream: seq<Bar>) returns (merged: seq<Bar>)
    ensures merged == archived + Missing(archived, stream)
  {
    merged := archived;
    var seen := set i | 0 <= i < |archived| :: (archived[i].key, archived[i].minute);
    for i := 0 to |stream|
      invariant merged == archived + Missing(archived, stream[..i])
      invariant forall key, minute :: (key, minute) in seen <==> Has(merged, key, minute)
    {
      var bar := stream[i];
      assert stream[..i + 1][..i] == stream[..i];
      if (bar.key, bar.minute) !in seen {
        HasAppend(merged, bar);
        seen := seen + {(bar.key, bar.minute)};
        merged := merged + [bar];
      }
    }
    assert stream[..|stream|] == stream;
  }

  lemma HasAppend(bars: seq<Bar>, bar: Bar)
    ensures forall key, minute :: Has(bars + [bar], key, minute) <==>
                             Has(bars, key, minute) || (bar.key == key && bar.minute == minute)
  {
    var more := bars + [bar];
    assert more[|bars|] == bar;
    forall key, minute | Has(bars, key, minute) ensures Has(more, key, minute) {
      var i :| 0 <= i < |bars| && bars[i].key == key && bars[i].minute == minute;
      assert more[i] == bars[i];
    }
  }

  lemma HasConcat(a: seq<Bar>, b: seq<Bar>, key: string, minute: Option<int>)
    ensures Has(a + b, key, minute) <==> Has(a, key, minute) || Has(b, key, minute)
  {
    if Has(a, key, minute) {
      var i :| 0 <= i < |a| && a[i].key == key && a[i].minute == minute;
      assert (a + b)[i] == a[i];
    }
    if Has(b, key, minute) {
      var i :| 0 <= i < |b| && b[i].key == key && b[i].minute == minute;
      assert (a + b)[|a| + i] == b[i];
    }
  }

  /** A merged instrument and minute is one that either source has. */
  lemma {:induction false} MergeCovers(archived: seq<Bar>, stream: seq<Bar>, key: string, minute: Option<int>)
    ensures Has(archived + Missing(archived, stream), key, minute) <==>
            Has(archived, key, minute) || Has(stream, key, minute)
  {
    if stream == [] {
      assert archived + Missing(archived, stream) == archived;
    } else {
      var init, bar := stream[..|stream| - 1], stream[|stream| - 1];
      var before := Missing(archived, init);
      MergeCovers(archived, init, key, minute);
      HasAppend(init, bar);
      assert stream == init + [bar];
      if !Has(archived + before, bar.key, bar.minute) {
        HasAppend(archived + before, bar);
        assert archived + Missing(archived, stream) == (archived + before) + [bar];
      }
    }
  }

  ghost predicate OncePerMinute(bars: seq<Bar>) {
    forall i, j :: 0 <= i < j < |bars| ==> bars[i].key != bars[j].key || bars[i].minute != bars[j].minute
  }

  /** An archived bar is never displaced or repeated, and the stream adds one bar a minute at most. */
  lemma {:induction false} ArchiveWins(archived: seq<Bar>, stream: seq<Bar>)
    ensures var added := Missing(archived, stream);
            OncePerMinute(added) && forall i :: 0 <= i < |added| ==> !Has(archived, added[i].key, added[i].minute)
  {
    if stream != [] {
      var bar := stream[|stream| - 1];
      var before := Missing(archived, stream[..|stream| - 1]);
      ArchiveWins(archived, stream[..|stream| - 1]);
      HasConcat(archived, before, bar.key, bar.minute);
    }
  }

  /** The first bar listed for an instrument and minute. */
  function FirstOf(bars: seq<Bar>, key: string, minute: Option<int>): Option<Bar> {
    if bars == [] then None
    else if bars[0].key == key && bars[0].minute == minute then Some(bars[0])
    else FirstOf(bars[1..], key, minute)
  }

  lemma {:induction false} FirstOfConcat(a: seq<Bar>, b: seq<Bar>, key: string, minute: Option<int>)
    ensures FirstOf(a + b, key, minute) ==
            if FirstOf(a, key, minute).Some? then FirstOf(a, key, minute) else FirstOf(b, key, minute)
    ensures FirstOf(a, key, minute).Some? <==> Has(a, key, minute)
    decreases |a|
  {
    if a == [] {
      assert a + b == b;
    } else {
      assert (a + b)[1..] == a[1..] + b;
      FirstOfConcat(a[1..], b, key, minute);
      assert a == [a[0]] + a[1..];
      HasConcat([a[0]], a[1..], key, minute);
      HasOne(a[0], key, minute);
    }
  }

  lemma HasOne(bar: Bar, key: string, minute: Option<int>)
    ensures Has([bar], key, minute) <==> bar.key == key && bar.minute == minute
  {
    assert [bar][0] == bar;
  }

  lemma FirstOfOne(bar: Bar, key: string, minute: Option<int>)
    ensures FirstOf([bar], key, minute) == if bar.key == key && bar.minute == minute then Some(bar) else None
  {
    assert [bar][1..] == [];
  }

  /** For each instrument and minute the merge shows the archive's bar, or if it has none the stream's first. */
  lemma {:induction false} MergeShows(archived: seq<Bar>, stream: seq<Bar>, key: string, minute: Option<int>)
    ensures FirstOf(archived + Missing(archived, stream), key, minute) ==
            if Has(archived, key, minute) then FirstOf(archived, key, minute) else FirstOf(stream, key, minute)
  {
    if stream == [] {
      assert archived + [] == archived;
      FirstOfConcat(archived, [], key, minute);
    } else {
      var init, bar := stream[..|stream| - 1], stream[|stream| - 1];
      var merged := archived + Missing(archived, init);
      MergeShows(archived, init, key, minute);
      assert stream == init + [bar];
      FirstOfConcat(init, [bar], key, minute);
      FirstOfConcat(archived, Missing(archived, init), key, minute);
      FirstOfConcat(merged, [bar], key, minute);
      FirstOfOne(bar, key, minute);
      NextMissing(archived, stream);
      hide FirstOf, Has, Missing;
    }
  }

  lemma NextMissing(archived: seq<Bar>, stream: seq<Bar>)
    requires stream != []
    ensures var before, bar := Missing(archived, stream[..|stream| - 1]), stream[|stream| - 1];
            archived + Missing(archived, stream) ==
            if Has(archived + before, bar.key, bar.minute) then archived + before else (archived + before) + [bar]
  {
  }
}
