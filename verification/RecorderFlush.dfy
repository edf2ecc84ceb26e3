/** What a flush does. */
module RecorderFlush {
  // Which minutes leave, in which order, and what becomes of each, in terms of the clock and the disk.

  import opened Basics
  import opened OrderedRows
  import opened Recorder

  /** The minute ended three seconds ago or earlier. */
  predicate Over(minute: int, now: nat) { 1000 * (minute + 60) + 3000 <= now }

  /** A minute is dropped eleven minutes after it began, or without space; otherwise the write decides. */
  predicate Meets(fate: Fate, minute: int, now: nat, disk: int -> Disk) {
    match fate
    case Dropped => 1000 * (minute + 660) < now || disk(minute) == Short
    case Failed => 1000 * (minute + 660) >= now && disk(minute) == Failing
    case Written => 1000 * (minute + 660) >= now && disk(minute) == Working
  }

  /** The minutes that are flushed, with their rows as they were and each with its fate. */
  ghost predicate Flushes(more: seq<Flushed>, pending: map<int, Minute>, now: nat, disk: int -> Disk) {
    forall i :: 0 <= i < |more| ==>
      more[i].minute in pending && more[i].rows == pending[more[i].minute] &&
      Meets(more[i].fate, more[i].minute, now, disk)
  }

  lemma {:induction false} FlushedMinutes(s: State, minutes: seq<int>, now: nat, disk: int -> Disk)
    requires forall i :: 0 <= i < |minutes| ==> minutes[i] in s.pending
    requires forall i, j :: 0 <= i < j < |minutes| ==> minutes[i] < minutes[j]
    ensures var t := FlushMinutes(s, minutes, now, disk);
            |t.flushed| == |s.flushed| + |minutes| && t.flushed[..|s.flushed|] == s.flushed &&
            Flushes(t.flushed[|s.flushed|..], s.pending, now, disk) &&
            (forall i :: 0 <= i < |minutes| ==> t.flushed[|s.flushed| + i].minute == minutes[i]) &&
            t.last == s.last && t.pending == s.pending - (set m | m in minutes)
    decreases |minutes|
  {
    if minutes != [] {
      var m, rest := minutes[0], minutes[1..];
      var entry := Flushed(m, s.pending[m], FateOf(m, now, disk));
      var s' := State(s.pending - {m}, s.last, s.flushed + [entry]);
      forall i | 0 <= i < |rest| ensures rest[i] in s'.pending { assert minutes[i + 1] == rest[i]; }
      FlushedMinutes(s', rest, now, disk);
      FlushFirst(s, minutes, now, disk);
      FirstThenRest(s, entry, rest, FlushMinutes(s', rest, now, disk), now, disk);
      assert minutes == [m] + rest;
    }
  }

  lemma FirstThenRest(s: State, entry: Flushed, rest: seq<int>, t: State, now: nat, disk: int -> Disk)
    requires entry.minute in s.pending && entry.rows == s.pending[entry.minute]
    requires Meets(entry.fate, entry.minute, now, disk)
    requires |t.flushed| == |s.flushed| + 1 + |rest| && t.flushed[..|s.flushed| + 1] == s.flushed + [entry]
    requires Flushes(t.flushed[|s.flushed| + 1..], s.pending - {entry.minute}, now, disk)
    ensures t.flushed[..|s.flushed|] == s.flushed && t.flushed[|s.flushed|] == entry
    ensures Flushes(t.flushed[|s.flushed|..], s.pending, now, disk)
  {
    var n := |s.flushed|;
    assert t.flushed[n] == t.flushed[..n + 1][n] == entry;
    assert t.flushed[..n] == t.flushed[..n + 1][..n];
    assert t.flushed[n..] == [entry] + t.flushed[n + 1..];
  }

  /**
   * A flush moves exactly the minutes that are over from the pending ones to the end of the flushed ones, oldest
   * first, rows unchanged, each with the fate the clock and the disk give it.
   */
  lemma FlushMovesWhatIsOver(s: State, now: nat, disk: int -> Disk)
    ensures var t := Flush(s, now, disk);
            |t.flushed| >= |s.flushed| && t.flushed[..|s.flushed|] == s.flushed && t.last == s.last &&
            var more := t.flushed[|s.flushed|..];
            Flushes(more, s.pending, now, disk) &&
            (forall i, j :: 0 <= i < j < |more| ==> more[i].minute < more[j].minute) &&
            (forall m :: m in s.pending && Over(m, now) <==> exists i :: 0 <= i < |more| && more[i].minute == m) &&
            (forall m :: m in t.pending <==> m in s.pending && !Over(m, now)) &&
            forall m :: m in t.pending ==> t.pending[m] == s.pending[m]
  {
    var minutes := OverInOrder(s, now);
    FlushedMinutes(s, minutes, now, disk);
    assert Flush(s, now, disk) == FlushMinutes(s, minutes, now, disk);
    hide FlushMinutes, Flushes, Over, Flush;
    Moved(s, FlushMinutes(s, minutes, now, disk), minutes, now);
  }

  /** The minutes that are over, oldest first. */
  lemma OverInOrder(s: State, now: nat) returns (minutes: seq<int>)
    ensures minutes == SortedKeys(set m | m in s.pending && Ready(m, now))
    ensures forall m :: m in minutes <==> m in s.pending && Over(m, now)
    ensures forall i :: 0 <= i < |minutes| ==> minutes[i] in s.pending
    ensures forall i, j :: 0 <= i < j < |minutes| ==> minutes[i] < minutes[j]
  {
    var ready := set m | m in s.pending && Ready(m, now);
    minutes := SortedKeys(ready);
    SortedKeysExact(ready);
    hide SortedKeys;
    forall i | 0 <= i < |minutes| ensures minutes[i] in s.pending { assert minutes[i] in minutes; }
  }

  lemma Moved(s: State, t: State, minutes: seq<int>, now: nat)
    requires forall m :: m in minutes <==> m in s.pending && Over(m, now)
    requires forall i, j :: 0 <= i < j < |minutes| ==> minutes[i] < minutes[j]
    requires |t.flushed| == |s.flushed| + |minutes| && t.pending == s.pending - (set m | m in minutes)
    requires forall i :: 0 <= i < |minutes| ==> t.flushed[|s.flushed| + i].minute == minutes[i]
    ensures var more := t.flushed[|s.flushed|..];
            (forall i, j :: 0 <= i < j < |more| ==> more[i].minute < more[j].minute) &&
            (forall m :: m in s.pending && Over(m, now) <==> exists i :: 0 <= i < |more| && more[i].minute == m) &&
            (forall m :: m in t.pending <==> m in s.pending && !Over(m, now)) &&
            forall m :: m in t.pending ==> t.pending[m] == s.pending[m]
  {
    hide Over;
    var more := t.flushed[|s.flushed|..];
    assert forall i :: 0 <= i < |more| ==> more[i].minute == minutes[i];
    forall m ensures m in minutes <==> exists i :: 0 <= i < |more| && more[i].minute == m {
      if m in minutes {
        var i :| 0 <= i < |minutes| && minutes[i] == m;
        assert more[i].minute == m;
      }
    }
  }
}
