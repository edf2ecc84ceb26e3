/** Reading the event store as a stream, page after page. */
module EventCursor {
  import opened EventRules

  /** `search` with `after_seq`: the first `limit` matching rows after a sequence number, oldest first. */
  function Page(rows: seq<Event>, matches: Event -> bool, after: nat, limit: nat): (r: seq<nat>)
    ensures |r| <= limit
    ensures forall i :: 0 <= i < |r| ==> after < r[i] <= |rows|
    decreases |rows| - after
  {
    if limit == 0 || after >= |rows| then []
    else if matches(rows[after]) then [after + 1] + Page(rows, matches, after + 1, limit - 1)
    else Page(rows, matches, after + 1, limit)
  }

  /** Every matching sequence number in a range, in order. */
  function Matching(rows: seq<Event>, matches: Event -> bool, from: nat, to: nat): seq<nat>
    decreases to
  {
    if to <= from then []
    else Matching(rows, matches, from, to - 1) + (if to <= |rows| && matches(rows[to - 1]) then [to] else [])
  }

  /** A reader's cursor: the last sequence number it was given. */
  function Cursor(page: seq<nat>, after: nat): nat { if page == [] then after else page[|page| - 1] }

  lemma {:induction false} MatchingSplit(rows: seq<Event>, matches: Event -> bool, a: nat, b: nat, c: nat)
    requires a <= b <= c <= |rows|
    ensures Matching(rows, matches, a, c) == Matching(rows, matches, a, b) + Matching(rows, matches, b, c)
    decreases c
  {
    if b < c { MatchingSplit(rows, matches, a, b, c - 1); }
  }

  lemma MatchingHead(rows: seq<Event>, matches: Event -> bool, a: nat, c: nat)
    requires a < c <= |rows|
    ensures Matching(rows, matches, a, c) ==
            (if matches(rows[a]) then [a + 1] else []) + Matching(rows, matches, a + 1, c)
  {
    MatchingSplit(rows, matches, a, a + 1, c);
    assert Matching(rows, matches, a, a) == [];
  }

  /** A page is exactly the matches between the cursor it was asked for and the cursor it leaves. */
  lemma {:induction false} PageIsNextMatches(rows: seq<Event>, matches: Event -> bool, after: nat, limit: nat)
    requires after <= |rows|
    ensures var page := Page(rows, matches, after, limit);
            var next := Cursor(page, after);
            after <= next <= |rows| && page == Matching(rows, matches, after, next) &&
            (|page| < limit ==> Matching(rows, matches, next, |rows|) == [])
    decreases |rows| - after
  {
    hide Page, Matching;
    if limit == 0 || after == |rows| {
      PageEmpty(rows, matches, after, limit);
    } else {
      var hit := matches(rows[after]);
      var limit' := if hit then limit - 1 else limit;
      PageIsNextMatches(rows, matches, after + 1, limit');
      PageStep(rows, matches, after, limit);
      var rest := Page(rows, matches, after + 1, limit');
      var next := Cursor(rest, after + 1);
      MatchingHead(rows, matches, after, if !hit && rest == [] then |rows| else next);
      if !hit && rest == [] {
        MatchingNone(rows, matches, after);
        MatchingNone(rows, matches, after + 1);
      }
    }
  }

  lemma PageEmpty(rows: seq<Event>, matches: Event -> bool, after: nat, limit: nat)
    requires limit == 0 || after == |rows|
    ensures Page(rows, matches, after, limit) == [] && Matching(rows, matches, after, after) == []
  {
  }

  lemma MatchingNone(rows: seq<Event>, matches: Event -> bool, after: nat)
    ensures Matching(rows, matches, after, after) == []
  {
  }

  lemma PageStep(rows: seq<Event>, matches: Event -> bool, after: nat, limit: nat)
    requires limit > 0 && after < |rows|
    ensures Page(rows, matches, after, limit) ==
            if matches(rows[after]) then [after + 1] + Page(rows, matches, after + 1, limit - 1)
            else Page(rows, matches, after + 1, limit)
  {
  }

  lemma {:induction false} MatchingOfPrefix(rows: seq<Event>, more: seq<Event>, matches: Event -> bool, a: nat, b: nat)
    requires b <= |rows|
    ensures Matching(rows + more, matches, a, b) == Matching(rows, matches, a, b)
    decreases b
  {
    if a < b { MatchingOfPrefix(rows, more, matches, a, b - 1); }
  }

  /** What a polling reader has been given after a number of polls, `tables[i]` being the store at poll `i`. */
  function Polled(tables: seq<seq<Event>>, matches: Event -> bool, limit: nat): seq<nat> {
    if tables == [] then []
    else
      var before := Polled(tables[..|tables| - 1], matches, limit);
      before + Page(tables[|tables| - 1], matches, Cursor(before, 0), limit)
  }

  /**
   * However the store grows between polls, the pages read so far are, together, every matching
   * row up to the cursor, in order: none twice and none skipped.
   */
  lemma {:induction false} PollingMissesNothing(tables: seq<seq<Event>>, matches: Event -> bool, limit: nat)
    requires forall i, j :: 0 <= i < j < |tables| ==> tables[i] <= tables[j]
    requires tables != []
    ensures var got := Polled(tables, matches, limit);
            var rows := tables[|tables| - 1];
            Cursor(got, 0) <= |rows| && got == Matching(rows, matches, 0, Cursor(got, 0))
  {
    var rows := tables[|tables| - 1];
    var init := tables[..|tables| - 1];
    var before := Polled(init, matches, limit);
    if init != [] {
      PollingMissesNothing(init, matches, limit);
      var prev := init[|init| - 1];
      assert tables[|init| - 1] <= tables[|tables| - 1];
      assert rows == prev + rows[|prev|..];
      MatchingOfPrefix(prev, rows[|prev|..], matches, 0, Cursor(before, 0));
    }
    PageIsNextMatches(rows, matches, Cursor(before, 0), limit);
    var page := Page(rows, matches, Cursor(before, 0), limit);
    MatchingSplit(rows, matches, 0, Cursor(before, 0), Cursor(page, Cursor(before, 0)));
    assert Cursor(before + page, 0) == Cursor(page, Cursor(before, 0));
  }
}
