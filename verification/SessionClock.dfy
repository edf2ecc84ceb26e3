/** The session's minutes: 09:15 to 15:15 IST on a day numbered from the epoch. */
module SessionClock {
  import opened Basics

  const BAR_SECONDS := 60

  /** 15:15 is 360 minutes after the open: the market's end, and the last minute the live runner steps. */
  const LAST_MINUTE := 360

  /** 09:15 IST (UTC+05:30). */
  function OpenEpoch(session: int): int { session * 86400 + 33300 - 19800 }

  function CloseEpoch(session: int): int { OpenEpoch(session) + BAR_SECONDS * LAST_MINUTE }

  /** `session_grid`: every minute from the open whose bar has closed by `asOf`, up to the market's end. */
  function Grid(session: int, asOf: int): seq<int> {
    var first, last := OpenEpoch(session), MinInt(asOf, CloseEpoch(session)) - BAR_SECONDS;
    if last < first then [] else seq((last - first) / BAR_SECONDS + 1, i => first + BAR_SECONDS * i)
  }

  /** The last bar known at a minute after the open; at the open itself there is none yet. */
  function BarEpoch(session: int, minute: int): int { OpenEpoch(session) + BAR_SECONDS * (minute - 1) }

  lemma GridClosed(session: int, asOf: int)
    ensures forall c :: 0 <= c < |Grid(session, asOf)| ==>
            Grid(session, asOf)[c] == OpenEpoch(session) + BAR_SECONDS * c
    ensures forall c :: 0 <= c < |Grid(session, asOf)| ==> Grid(session, asOf)[c] + BAR_SECONDS <= asOf
    ensures |Grid(session, asOf)| <= 6 * 60 && forall c :: 0 <= c < |Grid(session, asOf)| ==>
              Grid(session, asOf)[c] + 19800 == 86400 * session + 3600 * 9 + 60 * (15 + c)
  {
  }

  /** A later moment's grid only adds columns at the end. */
  lemma GridGrows(session: int, asOf: int, later: int)
    requires asOf <= later
    ensures Grid(session, asOf) <= Grid(session, later)
  {
    var a, b := Grid(session, asOf), Grid(session, later);
    GridClosed(session, asOf);
    GridClosed(session, later);
    assert |a| <= |b|;
    assert forall c :: 0 <= c < |a| ==> a[c] == b[c];
  }

  /** Stepping minute by minute, the grid is empty at the open and afterwards ends in that minute's bar. */
  lemma LastBarOfGrid(session: int, minute: nat)
    requires minute <= LAST_MINUTE
    ensures var grid := Grid(session, OpenEpoch(session) + BAR_SECONDS * minute);
            |grid| == minute && (minute > 0 ==> grid[minute - 1] == BarEpoch(session, minute))
  {
    GridClosed(session, OpenEpoch(session) + BAR_SECONDS * minute);
  }
}
