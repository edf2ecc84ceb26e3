/** The reservation limiter and the throttle. */
module RequestSpacing {
  import opened Basics
  import opened RealArithmetic

  /** Most requests a second. */
  const MAX_RATE := 4.0

  // ---- Schedules: one optional time for each step of a run ----

  type Schedule = seq<Option<real>>

  /** Any two times are at least one interval apart, in order. */
  ghost predicate Apart(s: Schedule, interval: real) {
    forall p, q :: 0 <= p < q < |s| && s[p].Some? && s[q].Some? ==> s[p].value + interval <= s[q].value
  }

  /** How many times fall within a window, both ends included. */
  function Within(s: Schedule, from: real, to: real): nat {
    if s == [] then 0
    else (if s[0].Some? && from <= s[0].value <= to then 1 else 0) + Within(s[1..], from, to)
  }

  lemma {:induction false} WithinAgrees(s: Schedule, from: real, later: real, to: real)
    requires from <= later
    requires forall q :: 0 <= q < |s| && s[q].Some? ==> later <= s[q].value
    ensures Within(s, from, to) == Within(s, later, to)
  {
    if s != [] { WithinAgrees(s[1..], from, later, to); }
  }

  lemma LaterOnes(s: Schedule, interval: real)
    requires s != [] && Apart(s, interval)
    ensures Apart(s[1..], interval)
    ensures s[0].Some? ==> forall q :: 0 <= q < |s[1..]| && s[1..][q].Some? ==> s[0].value + interval <= s[1..][q].value
  {
    forall q | 0 <= q < |s[1..]| ensures s[1..][q] == s[q + 1] {}
  }

  lemma OneMore(n: nat, interval: real, at: real, from: real, to: real)
    requires interval > 0.0 && from <= at <= to && n as real * interval <= MaxReal(0.0, to - at)
    ensures (n + 1) as real * interval <= MaxReal(0.0, to - from + interval)
  {
    assert (n + 1) as real * interval == n as real * interval + interval;
  }

  /** A window of length w holds at most w / interval + 1 of them. */
  lemma {:induction false} WindowHolds(s: Schedule, interval: real, from: real, to: real)
    requires interval > 0.0 && Apart(s, interval)
    ensures Within(s, from, to) as real * interval <= MaxReal(0.0, to - from + interval)
  {
    hide Apart;
    if s != [] {
      var rest := s[1..];
      LaterOnes(s, interval);
      if s[0].Some? && from <= s[0].value <= to {
        var next := s[0].value + interval;
        WithinAgrees(rest, from, next, to);
        WindowHolds(rest, interval, next, to);
        OneMore(Within(rest, next, to), interval, s[0].value, from, to);
      } else {
        WindowHolds(rest, interval, from, to);
      }
    }
  }

  // ---- Reservations ----

  datatype Call = Acquire(now: real) | CoolDown(now: real, seconds: real)

  /** The time from which the next request may go, after one locked section. */
  function Reserve(next: real, c: Call, interval: real): real {
    match c
    case Acquire(now) => MaxReal(now, next) + interval
    case CoolDown(now, seconds) => MaxReal(next, now + seconds)
  }

  /** When each acquire lets its caller go on: at once, or after sleeping until its reservation. */
  function Grants(next: real, calls: seq<Call>, interval: real): (s: Schedule)
    ensures |s| == |calls|
    decreases |calls|
  {
    if calls == [] then []
    else
      [if calls[0].Acquire? then Some(MaxReal(calls[0].now, next)) else None] +
      Grants(Reserve(next, calls[0], interval), calls[1..], interval)
  }

  ghost predicate NotBefore(s: Schedule, next: real, calls: seq<Call>) {
    && |s| == |calls|
    && (forall p :: 0 <= p < |s| ==> (s[p].Some? <==> calls[p].Acquire?))
    && (forall p :: 0 <= p < |s| && s[p].Some? ==> next <= s[p].value && calls[p].now <= s[p].value)
  }

  ghost predicate AfterCoolDowns(s: Schedule, calls: seq<Call>)
    requires |s| == |calls|
  {
    forall p, q :: 0 <= p < q < |s| && calls[p].CoolDown? && s[q].Some? ==>
      calls[p].now + calls[p].seconds <= s[q].value
  }

  /** What callers may rely on: never before asking, one interval apart, never before a cool-down ends. */
  ghost predicate Respects(s: Schedule, next: real, calls: seq<Call>, interval: real) {
    NotBefore(s, next, calls) && Apart(s, interval) && AfterCoolDowns(s, calls)
  }

  ghost predicate NoLater(s: Schedule, other: Schedule)
    requires |s| == |other|
  {
    forall p :: 0 <= p < |s| && s[p].Some? && other[p].Some? ==> s[p].value <= other[p].value
  }

  lemma FirstApart(first: Option<real>, rest: Schedule, interval: real)
    requires Apart(rest, interval)
    requires forall q :: 0 <= q < |rest| && first.Some? && rest[q].Some? ==> first.value + interval <= rest[q].value
    ensures Apart([first] + rest, interval)
  {
  }

  lemma FirstCoolDown(first: Option<real>, c: Call, rest: Schedule, calls: seq<Call>)
    requires |rest| == |calls| && AfterCoolDowns(rest, calls)
    requires forall q :: 0 <= q < |rest| && c.CoolDown? && rest[q].Some? ==> c.now + c.seconds <= rest[q].value
    ensures AfterCoolDowns([first] + rest, [c] + calls)
  {
  }

  lemma FirstNotBefore(next: real, c: Call, rest: Schedule, calls: seq<Call>, interval: real)
    requires interval > 0.0 && NotBefore(rest, Reserve(next, c, interval), calls)
    ensures NotBefore([if c.Acquire? then Some(MaxReal(c.now, next)) else None] + rest, next, [c] + calls)
  {
  }

  /** Every interleaving of workers gets times one interval apart and after every earlier cool-down. */
  lemma {:induction false} GrantsRespect(next: real, calls: seq<Call>, interval: real)
    requires interval > 0.0
    ensures Respects(Grants(next, calls, interval), next, calls, interval)
    decreases |calls|
  {
    if calls != [] {
      var c, later := calls[0], calls[1..];
      var rest := Grants(Reserve(next, c, interval), later, interval);
      GrantsRespect(Reserve(next, c, interval), later, interval);
      assert calls == [c] + later;
      var first := if c.Acquire? then Some(MaxReal(c.now, next)) else None;
      FirstNotBefore(next, c, rest, later, interval);
      FirstApart(first, rest, interval);
      FirstCoolDown(first, c, rest, later);
    }
  }

  lemma RestRespects(s: Schedule, next: real, calls: seq<Call>, interval: real)
    requires interval > 0.0 && calls != [] && Respects(s, next, calls, interval)
    ensures Respects(s[1..], Reserve(next, calls[0], interval), calls[1..], interval)
  {
    var rest, after := s[1..], Reserve(next, calls[0], interval);
    forall p | 0 <= p < |rest| && rest[p].Some? ensures after <= rest[p].value {
      assert rest[p] == s[p + 1] && calls[1..][p] == calls[p + 1];
    }
  }

  /** And no schedule that respects all this is ever earlier: waits are as short as they can be. */
  lemma {:induction false} GrantsAreEarliest(next: real, calls: seq<Call>, interval: real, other: Schedule)
    requires interval > 0.0 && Respects(other, next, calls, interval)
    ensures NoLater(Grants(next, calls, interval), other)
    decreases |calls|
  {
    if calls != [] {
      RestRespects(other, next, calls, interval);
      GrantsAreEarliest(Reserve(next, calls[0], interval), calls[1..], interval, other[1..]);
      var s := Grants(next, calls, interval);
      assert forall q :: 1 <= q < |s| ==> s[q] == s[1..][q - 1] && other[q] == other[1..][q - 1];
    }
  }

  /** A window of any run holds at most its length over the interval, plus one. */
  lemma GrantsPerWindow(next: real, calls: seq<Call>, interval: real, from: real, to: real)
    requires interval > 0.0 && from <= to
    ensures Within(Grants(next, calls, interval), from, to) as real <= (to - from) / interval + 1.0
  {
    GrantsRespect(next, calls, interval);
    WindowHolds(Grants(next, calls, interval), interval, from, to);
    Divided(Within(Grants(next, calls, interval), from, to) as real, interval, to - from);
  }

  lemma Divided(n: real, interval: real, length: real)
    requires interval > 0.0 && n * interval <= length + interval
    ensures n <= length / interval + 1.0
  {
    var k := length / interval;
    assert k * interval == length;
    assert (n - k - 1.0) * interval == n * interval - k * interval - interval;
    if n > k + 1.0 { Stretch(0.0, n - k - 1.0, interval); }
  }

  function Interval(rate: real): (seconds: real)
    ensures 0.25 <= seconds <= 10.0 && (0.1 <= rate <= 4.0 ==> seconds * rate == 1.0)
    ensures (rate < 0.1 ==> seconds == 10.0) && (rate > 4.0 ==> seconds == 0.25)
  {
    1.0 / MaxReal(0.1, MinReal(MAX_RATE, rate))
  }

  class RateLimiter {
    const interval: real
    var next: real

    constructor (rate: real)
      ensures interval == Interval(rate) && next == 0.0
    {
      interval := Interval(rate);
      next := 0.0;
    }

    /** How long the caller sleeps, after the lock is released. */
    method AcquireAt(now: real) returns (wait: real)
      modifies this
      ensures Some(now + wait) == Grants(old(next), [Acquire(now)], interval)[0] && wait >= 0.0
      ensures next == Reserve(old(next), Acquire(now), interval)
    {
      wait := MaxReal(0.0, next - now);
      next := MaxReal(now, next) + interval;
    }

    method CoolDownFor(now: real, seconds: real)
      modifies this
      ensures next == Reserve(old(next), CoolDown(now, seconds), interval)
    {
      next := MaxReal(next, now + seconds);
    }
  }

  // ---- The throttle ----

  /** A post asks with its own interval and may oversleep; a cool-down comes from a 429. */
  datatype Visit = Post(now: real, interval: real, late: real) | Limited(now: real, seconds: real)

  datatype Throttle = Throttle(lastPost: real, cooldownUntil: real)

  function Wait(t: Throttle, now: real, interval: real): real {
    MaxReal(MaxReal(interval - (now - t.lastPost), t.cooldownUntil - now), 0.0)
  }

  /** When the post goes out; a caller without an interval is not held and leaves no mark. */
  function Stamp(t: Throttle, v: Visit): Option<real> {
    if v.Post? && v.interval > 0.0 then Some(v.now + Wait(t, v.now, v.interval) + v.late) else None
  }

  function After(t: Throttle, v: Visit): Throttle {
    match v
    case Post(_, _, _) => if Stamp(t, v).Some? then t.(lastPost := Stamp(t, v).value) else t
    case Limited(now, seconds) =>
      if seconds <= 0.0 then t else t.(cooldownUntil := MaxReal(t.cooldownUntil, now + seconds))
  }

  function Stamps(t: Throttle, visits: seq<Visit>): (s: Schedule)
    ensures |s| == |visits|
    decreases |visits|
  {
    if visits == [] then [] else [Stamp(t, visits[0])] + Stamps(After(t, visits[0]), visits[1..])
  }

  ghost predicate Held(s: Schedule, t: Throttle, visits: seq<Visit>) {
    && |s| == |visits|
    && (forall p :: 0 <= p < |s| ==> (s[p].Some? <==> visits[p].Post? && visits[p].interval > 0.0))
    && (forall p :: 0 <= p < |s| && s[p].Some? ==> visits[p].now <= s[p].value)
    && (forall p :: 0 <= p < |s| && s[p].Some? ==> t.lastPost + visits[p].interval <= s[p].value)
    && (forall p :: 0 <= p < |s| && s[p].Some? ==> t.cooldownUntil <= s[p].value)
  }

  ghost predicate OwnIntervals(s: Schedule, visits: seq<Visit>)
    requires |s| == |visits|
    requires forall p :: 0 <= p < |s| && s[p].Some? ==> visits[p].Post?
  {
    forall p, q :: 0 <= p < q < |s| && s[p].Some? && s[q].Some? ==> s[p].value + visits[q].interval <= s[q].value
  }

  ghost predicate AfterLimits(s: Schedule, visits: seq<Visit>)
    requires |s| == |visits|
  {
    forall p, q :: 0 <= p < q < |s| && visits[p].Limited? && visits[p].seconds > 0.0 && s[q].Some? ==>
      visits[p].now + visits[p].seconds <= s[q].value
  }

  /** Each post is its own interval after every earlier one, and after every earlier cool-down. */
  ghost predicate Throttled(s: Schedule, t: Throttle, visits: seq<Visit>) {
    Held(s, t, visits) && OwnIntervals(s, visits) && AfterLimits(s, visits)
  }

  ghost predicate OnTimeOrLate(visits: seq<Visit>) {
    forall p :: 0 <= p < |visits| && visits[p].Post? ==> visits[p].late >= 0.0
  }

  lemma FirstHeld(t: Throttle, v: Visit, rest: Schedule, visits: seq<Visit>)
    requires Held(rest, After(t, v), visits) && (v.Post? ==> v.late >= 0.0)
    ensures Held([Stamp(t, v)] + rest, t, [v] + visits)
  {
    if Stamp(t, v).Some? { assert t.lastPost <= Stamp(t, v).value; }
  }

  lemma FirstOwnInterval(first: Option<real>, v: Visit, rest: Schedule, visits: seq<Visit>)
    requires |rest| == |visits| && (first.Some? ==> v.Post?)
    requires forall p :: 0 <= p < |rest| && rest[p].Some? ==> visits[p].Post?
    requires OwnIntervals(rest, visits)
    requires forall q :: 0 <= q < |rest| && first.Some? && rest[q].Some? ==>
               first.value + visits[q].interval <= rest[q].value
    ensures OwnIntervals([first] + rest, [v] + visits)
  {
  }

  lemma FirstLimit(first: Option<real>, v: Visit, rest: Schedule, visits: seq<Visit>)
    requires |rest| == |visits| && AfterLimits(rest, visits)
    requires forall q :: 0 <= q < |rest| && v.Limited? && v.seconds > 0.0 && rest[q].Some? ==>
               v.now + v.seconds <= rest[q].value
    ensures AfterLimits([first] + rest, [v] + visits)
  {
  }

  /** However long each sleep overruns, every caller keeps its own interval and every cool-down. */
  lemma {:induction false} StampsAreThrottled(t: Throttle, visits: seq<Visit>)
    requires OnTimeOrLate(visits)
    ensures Throttled(Stamps(t, visits), t, visits)
    decreases |visits|
  {
    if visits != [] {
      var v, later := visits[0], visits[1..];
      var rest := Stamps(After(t, v), later);
      StampsAreThrottled(After(t, v), later);
      assert visits == [v] + later;
      FirstHeld(t, v, rest, later);
      FirstOwnInterval(Stamp(t, v), v, rest, later);
      FirstLimit(Stamp(t, v), v, rest, later);
    }
  }

  ghost predicate Punctual(visits: seq<Visit>) {
    forall p :: 0 <= p < |visits| && visits[p].Post? ==> visits[p].late == 0.0
  }

  lemma RestThrottled(s: Schedule, t: Throttle, visits: seq<Visit>)
    requires visits != [] && Throttled(s, t, visits) && Punctual(visits)
    requires Stamp(t, visits[0]).Some? ==> s[0].Some? && Stamp(t, visits[0]).value <= s[0].value
    ensures Throttled(s[1..], After(t, visits[0]), visits[1..])
  {
    var u, rest := After(t, visits[0]), s[1..];
    forall p | 0 <= p < |rest| && rest[p].Some?
      ensures u.lastPost + visits[1..][p].interval <= rest[p].value && u.cooldownUntil <= rest[p].value
    {
      assert rest[p] == s[p + 1] && visits[1..][p] == visits[p + 1];
    }
  }

  /** With punctual sleeps no post could have gone out earlier. */
  lemma {:induction false} StampsAreEarliest(t: Throttle, visits: seq<Visit>, other: Schedule)
    requires Punctual(visits) && Throttled(other, t, visits)
    ensures NoLater(Stamps(t, visits), other)
    decreases |visits|
  {
    if visits != [] {
      RestThrottled(other, t, visits);
      StampsAreEarliest(After(t, visits[0]), visits[1..], other[1..]);
      var s := Stamps(t, visits);
      assert forall q :: 1 <= q < |s| ==> s[q] == s[1..][q - 1] && other[q] == other[1..][q - 1];
    }
  }

  lemma LeastApart(s: Schedule, t: Throttle, visits: seq<Visit>, least: real)
    requires Throttled(s, t, visits)
    requires forall p :: 0 <= p < |visits| && visits[p].Post? && visits[p].interval > 0.0 ==>
             least <= visits[p].interval
    ensures Apart(s, least)
  {
  }

  /** A window holds at most its length over the least interval asked for, plus one. */
  lemma StampsPerWindow(t: Throttle, visits: seq<Visit>, least: real, from: real, to: real)
    requires OnTimeOrLate(visits) && least > 0.0 && from <= to
    requires forall p :: 0 <= p < |visits| && visits[p].Post? && visits[p].interval > 0.0 ==>
             least <= visits[p].interval
    ensures Within(Stamps(t, visits), from, to) as real <= (to - from) / least + 1.0
  {
    hide Within, Stamps;
    StampsAreThrottled(t, visits);
    LeastApart(Stamps(t, visits), t, visits, least);
    WindowHolds(Stamps(t, visits), least, from, to);
    Divided(Within(Stamps(t, visits), from, to) as real, least, to - from);
  }

  class PostThrottle {
    var state: Throttle

    constructor ()
      ensures state == Throttle(0.0, 0.0)
    {
      state := Throttle(0.0, 0.0);
    }

    /** `late` is how much longer than asked the sleep took. */
    method ThrottlePost(now: real, interval: real, late: real) returns (stamp: Option<real>)
      modifies this
      ensures stamp == Stamp(old(state), Post(now, interval, late))
      ensures state == After(old(state), Post(now, interval, late))
    {
      if interval <= 0.0 { return None; }
      var wait := MaxReal(MaxReal(interval - (now - state.lastPost), state.cooldownUntil - now), 0.0);
      stamp := Some(now + wait + late);
      state := state.(lastPost := now + wait + late);
    }

    method SetRateCooldown(now: real, seconds: real)
      modifies this
      ensures state == After(old(state), Limited(now, seconds))
    {
      if seconds <= 0.0 { return; }
      state := state.(cooldownUntil := MaxReal(state.cooldownUntil, now + seconds));
    }
  }
}
