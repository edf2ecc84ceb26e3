/** The API's token buckets. */
module TokenBucket {
  import opened Basics
  import opened RealArithmetic

  /** Tokens left after the latest check of a key, and when that was. */
  datatype Bucket = Bucket(tokens: real, last: real)

  datatype Answer = Answer(allowed: bool, remaining: int, wait: real)

  const IDLE_SECONDS := 600.0
  const MAX_BUCKETS := 10000

  function Earned(seconds: real, rate: real): real { seconds * rate }

  /** Tokens at a moment: what is left plus what time has earned, never above the burst. */
  function Tokens(b: Option<Bucket>, now: real, rate: real, burst: nat): real {
    if b.None? then burst as real else MinReal(burst as real, b.value.tokens + Earned(now - b.value.last, rate))
  }

  function Spent(tokens: real): real { if tokens >= 1.0 then tokens - 1.0 else tokens }

  function Next(b: Option<Bucket>, now: real, rate: real, burst: nat): Bucket {
    Bucket(Spent(Tokens(b, now, rate, burst)), now)
  }

  function Reply(b: Option<Bucket>, now: real, rate: real, burst: nat): Answer
    requires rate > 0.0
  {
    var tokens := Tokens(b, now, rate, burst);
    Answer(tokens >= 1.0, Spent(tokens).Floor, if tokens >= 1.0 then 0.0 else (1.0 - tokens) / rate)
  }

  ghost predicate Ok(b: Option<Bucket>, now: real, burst: nat) {
    b.Some? ==> 0.0 <= b.value.tokens <= burst as real && b.value.last <= now
  }

  lemma EarnedBasics(seconds: real, more: real, rate: real)
    requires rate > 0.0
    ensures Earned(seconds + more, rate) == Earned(seconds, rate) + Earned(more, rate)
    ensures seconds >= 0.0 ==> Earned(seconds, rate) >= 0.0
    ensures more >= 0.0 ==> Earned(seconds, rate) <= Earned(seconds + more, rate)
  {
  }

  lemma NextOk(b: Option<Bucket>, now: real, rate: real, burst: nat)
    requires rate > 0.0 && Ok(b, now, burst)
    ensures Ok(Some(Next(b, now, rate, burst)), now, burst)
    ensures 0.0 <= Tokens(b, now, rate, burst) <= burst as real
  {
    if b.Some? { EarnedBasics(now - b.value.last, 0.0, rate); }
  }

  // ---- One key ----

  /** One check of a key: when, and the rate its caller is granted, in tokens a second. */
  datatype Ask = Ask(now: real, rate: real)

  ghost predicate Positive(asks: seq<Ask>) { forall i :: 0 <= i < |asks| ==> asks[i].rate > 0.0 }

  ghost predicate Rises(asks: seq<Ask>) { forall i, j :: 0 <= i <= j < |asks| ==> asks[i].now <= asks[j].now }

  ghost function Answers(b: Option<Bucket>, asks: seq<Ask>, burst: nat): seq<Answer>
    requires Positive(asks)
    decreases |asks|
  {
    if asks == [] then []
    else
      var a := asks[0];
      [Reply(b, a.now, a.rate, burst)] + Answers(Some(Next(b, a.now, a.rate, burst)), asks[1..], burst)
  }

  function Allowed(answers: seq<Answer>): nat {
    if answers == [] then 0 else (if answers[0].allowed then 1 else 0) + Allowed(answers[1..])
  }

  /** What time earns over some checks: up to each at the rate that check comes with. */
  function EarnedOver(asks: seq<Ask>): real {
    if |asks| <= 1 then 0.0 else Earned(asks[1].now - asks[0].now, asks[1].rate) + EarnedOver(asks[1..])
  }

  /** What the rest of a run can allow: the tokens now, plus what the remaining time earns. */
  lemma {:induction false} TokensBound(b: Option<Bucket>, asks: seq<Ask>, burst: nat)
    requires Positive(asks) && asks != [] && Rises(asks) && Ok(b, asks[0].now, burst)
    ensures Allowed(Answers(b, asks, burst)) as real <= Tokens(b, asks[0].now, asks[0].rate, burst) + EarnedOver(asks)
    decreases |asks|
  {
    hide Earned;
    var a, rest := asks[0], asks[1..];
    var b' := Some(Next(b, a.now, a.rate, burst));
    NextOk(b, a.now, a.rate, burst);
    assert Answers(b, asks, burst)[1..] == Answers(b', rest, burst);
    if rest != [] {
      assert Rises(rest) && Positive(rest) && rest[0] == asks[1];
      TokensBound(b', rest, burst);
    }
  }

  /** Between any two checks of a key at most the burst plus what the elapsed time earns is allowed. */
  lemma WindowBound(b: Option<Bucket>, asks: seq<Ask>, burst: nat)
    requires Positive(asks) && asks != [] && Rises(asks) && Ok(b, asks[0].now, burst)
    ensures Allowed(Answers(b, asks, burst)) as real <= burst as real + EarnedOver(asks)
  {
    TokensBound(b, asks, burst);
    NextOk(b, asks[0].now, asks[0].rate, burst);
  }

  /** Which is at most the rate times the elapsed time, if no check comes with a higher rate. */
  lemma {:induction false} EarnedAtMost(asks: seq<Ask>, rate: real)
    requires asks != [] && Rises(asks) && forall i :: 0 <= i < |asks| ==> asks[i].rate <= rate
    ensures EarnedOver(asks) <= rate * (asks[|asks| - 1].now - asks[0].now)
  {
    if |asks| > 1 {
      var rest, d := asks[1..], asks[1].now - asks[0].now;
      assert rest[|rest| - 1] == asks[|asks| - 1];
      EarnedAtMost(rest, rate);
      AddSpan(rate, asks[1].rate, d, EarnedOver(rest), rest[|rest| - 1].now - rest[0].now,
              asks[|asks| - 1].now - asks[0].now);
    } else {
      NothingEarned(asks[|asks| - 1].now - asks[0].now, rate);
    }
  }

  lemma AddSpan(rate: real, first: real, d: real, rest: real, e: real, span: real)
    requires first <= rate && d >= 0.0 && rest <= rate * e && span == d + e
    ensures Earned(d, first) + rest <= rate * span
  {
    Scale(first, rate, d);
    assert rate * span == rate * d + rate * e;
  }

  /**
   * A denied caller's wait is exact: the key's next check, with none in between, is allowed if
   * and only if the wait has passed and the burst holds at least one token.
   */
  lemma WaitIsExact(b: Option<Bucket>, now: real, later: real, rate: real, burst: nat)
    requires rate > 0.0 && Ok(b, now, burst) && now <= later
    requires !Reply(b, now, rate, burst).allowed
    ensures Reply(Some(Next(b, now, rate, burst)), later, rate, burst).allowed <==>
            later >= now + Reply(b, now, rate, burst).wait && burst >= 1
  {
    var t := Tokens(b, now, rate, burst);
    var wait, d := (1.0 - t) / rate, later - now;
    assert wait * rate == 1.0 - t;
    if d >= wait {
      assert (d - wait) * rate >= 0.0;
      assert d * rate == wait * rate + (d - wait) * rate;
    } else {
      assert (wait - d) * rate > 0.0;
      assert wait * rate == d * rate + (wait - d) * rate;
    }
  }

  /** Nothing is earned and nothing lost between checks at one instant. */
  lemma SameInstant(b: Option<Bucket>, a: Ask, burst: nat)
    requires a.rate > 0.0 && Ok(b, a.now, burst)
    ensures var b' := Some(Next(b, a.now, a.rate, burst));
            Ok(b', a.now, burst) &&
            Tokens(b', a.now, a.rate, burst) == Spent(Tokens(b, a.now, a.rate, burst))
  {
    NextOk(b, a.now, a.rate, burst);
    assert Earned(a.now - a.now, a.rate) == 0.0;
  }

  /** Of any number of checks at one instant as many are allowed as there are whole tokens. */
  lemma {:induction false} WholeTokens(b: Option<Bucket>, a: Ask, burst: nat, n: nat)
    requires a.rate > 0.0 && Ok(b, a.now, burst)
    ensures Allowed(Answers(b, seq(n, _ => a), burst)) == MinInt(n, Tokens(b, a.now, a.rate, burst).Floor)
    decreases n
  {
    NextOk(b, a.now, a.rate, burst);
    if n > 0 {
      var b' := Some(Next(b, a.now, a.rate, burst));
      assert seq(n, _ => a)[1..] == seq(n - 1, _ => a);
      SameInstant(b, a, burst);
      WholeTokens(b', a, burst, n - 1);
      assert Answers(b, seq(n, _ => a), burst)[1..] == Answers(b', seq(n - 1, _ => a), burst);
      hide Tokens;
    }
  }

  /** The number of tokens a check reports is how many more are allowed at that instant, however many ask. */
  lemma RemainingIsExact(b: Option<Bucket>, a: Ask, burst: nat, n: nat)
    requires a.rate > 0.0 && Ok(b, a.now, burst)
    ensures Allowed(Answers(Some(Next(b, a.now, a.rate, burst)), seq(n, _ => a), burst)) ==
            MinInt(n, Reply(b, a.now, a.rate, burst).remaining)
  {
    SameInstant(b, a, burst);
    WholeTokens(Some(Next(b, a.now, a.rate, burst)), a, burst, n);
    hide Tokens, Answers;
  }

  /** A key that is met for the first time may ask its whole burst at once, and no more. */
  lemma FirstBurst(a: Ask, burst: nat, n: nat)
    requires a.rate > 0.0
    ensures Allowed(Answers(None, seq(n, _ => a), burst)) == MinInt(n, burst)
  {
    WholeTokens(None, a, burst, n);
  }

  // ---- Forgetting idle buckets ----

  lemma IdleIsFull(b: Bucket, now: real, rate: real, burst: nat)
    requires rate > 0.0 && Ok(Some(b), now, burst) && now - b.last >= IDLE_SECONDS
    requires burst as real <= IDLE_SECONDS * rate
    ensures Tokens(Some(b), now, rate, burst) == burst as real
  {
    EarnedBasics(IDLE_SECONDS, now - b.last - IDLE_SECONDS, rate);
  }

  /** At one instant a fresh bucket allows its whole burst. */
  lemma {:induction false} FreshAllowsBurst(b: Option<Bucket>, a: Ask, burst: nat, n: nat)
    requires a.rate > 0.0 && Tokens(b, a.now, a.rate, burst) >= n as real
    ensures Allowed(Answers(b, seq(n, _ => a), burst)) == n
    decreases n
  {
    if n > 0 {
      var b' := Some(Next(b, a.now, a.rate, burst));
      assert seq(n, _ => a)[1..] == seq(n - 1, _ => a);
      FreshAllowsBurst(b', a, burst, n - 1);
      assert Answers(b, seq(n, _ => a), burst)[1..] == Answers(b', seq(n - 1, _ => a), burst);
    }
  }

  lemma {:induction false} NothingEarnedAtOnce(a: Ask, n: nat)
    ensures EarnedOver(seq(n, _ => a)) == 0.0
  {
    if n > 1 {
      assert seq(n, _ => a)[1..] == seq(n - 1, _ => a);
      NothingEarnedAtOnce(a, n - 1);
      NothingEarned(a.now - a.now, a.rate);
    }
  }

  /** A bucket, idle for ten minutes when the next check comes with some rate. */
  ghost predicate IdleUntil(b: Bucket, asks: seq<Ask>, rate: real, burst: nat) {
    asks != [] && asks[0].rate == rate && Rises(asks) && Ok(Some(b), asks[0].now, burst) &&
    asks[0].now - b.last >= IDLE_SECONDS
  }

  /** Such a bucket can never be told from a forgotten one by that or any later checks. */
  ghost predicate Invisible(rate: real, burst: nat) {
    forall b: Bucket, asks: seq<Ask> :: Positive(asks) && IdleUntil(b, asks, rate, burst) ==>
      Answers(Some(b), asks, burst) == Answers(None, asks, burst)
  }

  /** Forgetting idle buckets is invisible exactly when ten minutes earn a full burst. */
  lemma ForgettingIsInvisible(rate: real, burst: nat)
    requires rate > 0.0
    ensures Invisible(rate, burst) <==> burst as real <= 600.0 * rate
  {
    if burst as real <= IDLE_SECONDS * rate {
      forall b: Bucket, asks: seq<Ask> | Positive(asks) && IdleUntil(b, asks, rate, burst)
        ensures Answers(Some(b), asks, burst) == Answers(None, asks, burst)
      {
        IdleIsFull(b, asks[0].now, rate, burst);
      }
    } else {
      var drained, a := Bucket(0.0, 0.0), Ask(IDLE_SECONDS, rate);
      var asks := seq(burst, _ => a);
      assert Positive(asks) && IdleUntil(drained, asks, rate, burst);
      TokensBound(Some(drained), asks, burst);
      NothingEarnedAtOnce(a, burst);
      FreshAllowsBurst(None, a, burst, burst);
      assert Answers(Some(drained), asks, burst) != Answers(None, asks, burst);
    }
  }

  // ---- All keys ----

  type Buckets = map<string, Bucket>

  /** One check of any key. */
  datatype Check = Check(key: string, ask: Ask)

  function Keep(buckets: Buckets, now: real): Buckets {
    if |buckets| <= MAX_BUCKETS then buckets
    else map k | k in buckets && now - buckets[k].last < IDLE_SECONDS :: buckets[k]
  }

  /** Beyond ten thousand keys exactly those are forgotten that have not asked for ten minutes. */
  lemma IdleAreForgotten(buckets: Buckets, now: real, key: string)
    requires key in buckets
    ensures key !in Keep(buckets, now) <==> |buckets| > 10000 && now - buckets[key].last >= 600.0
    ensures key in Keep(buckets, now) ==> Keep(buckets, now)[key] == buckets[key]
  {
  }

  function Record(buckets: Buckets, c: Check, burst: nat): Buckets {
    buckets[c.key := Next(Lookup(buckets, c.key), c.ask.now, c.ask.rate, burst)]
  }

  ghost predicate AllPositive(checks: seq<Check>) { forall i :: 0 <= i < |checks| ==> checks[i].ask.rate > 0.0 }

  /** The answers of a limiter that forgets idle buckets, and of one that never does. */
  ghost function Replies(buckets: Buckets, checks: seq<Check>, burst: nat, forgets: bool): (answers: seq<Answer>)
    requires AllPositive(checks)
    ensures |answers| == |checks|
    decreases |checks|
  {
    if checks == [] then []
    else
      var c := checks[0];
      var after := Record(buckets, c, burst);
      [Reply(Lookup(buckets, c.key), c.ask.now, c.ask.rate, burst)] +
      Replies(if forgets then Keep(after, c.ask.now) else after, checks[1..], burst, forgets)
  }

  ghost predicate ClockRises(checks: seq<Check>, from: real) {
    (forall i :: 0 <= i < |checks| ==> from <= checks[i].ask.now) &&
    forall i, j :: 0 <= i <= j < |checks| ==> checks[i].ask.now <= checks[j].ask.now
  }

  ghost predicate AllOk(buckets: Buckets, now: real, burst: nat) {
    forall k :: k in buckets ==> Ok(Some(buckets[k]), now, burst)
  }

  /** The forgetful limiter lacks only buckets that have been idle for ten minutes. */
  ghost predicate Forgot(some: Buckets, all: Buckets, now: real) {
    forall k :: (k in some ==> k in all && some[k] == all[k]) &&
                (k in all && k !in some ==> now - all[k].last >= IDLE_SECONDS)
  }

  /** A forgotten bucket had refilled, so the next check finds the same tokens. */
  lemma SameTokens(some: Buckets, all: Buckets, key: string, a: Ask, burst: nat, from: real)
    requires a.rate > 0.0 && burst as real <= IDLE_SECONDS * a.rate
    requires AllOk(all, from, burst) && Forgot(some, all, from) && from <= a.now
    ensures Ok(Lookup(all, key), a.now, burst)
    ensures Tokens(Lookup(some, key), a.now, a.rate, burst) == Tokens(Lookup(all, key), a.now, a.rate, burst)
  {
    if key in all {
      assert Ok(Some(all[key]), a.now, burst);
      hide Tokens;
      if key !in some { FullAgain(all[key], a, burst); }
    }
  }

  lemma FullAgain(b: Bucket, a: Ask, burst: nat)
    requires a.rate > 0.0 && Ok(Some(b), a.now, burst) && a.now - b.last >= IDLE_SECONDS
    requires burst as real <= IDLE_SECONDS * a.rate
    ensures Tokens(None, a.now, a.rate, burst) == Tokens(Some(b), a.now, a.rate, burst)
  {
    IdleIsFull(b, a.now, a.rate, burst);
  }

  lemma ForgotStep(some: Buckets, all: Buckets, c: Check, burst: nat, from: real)
    requires c.ask.rate > 0.0 && burst as real <= IDLE_SECONDS * c.ask.rate
    requires AllOk(all, from, burst) && Forgot(some, all, from) && from <= c.ask.now
    ensures Reply(Lookup(some, c.key), c.ask.now, c.ask.rate, burst) ==
            Reply(Lookup(all, c.key), c.ask.now, c.ask.rate, burst)
    ensures var some', all' := Record(some, c, burst), Record(all, c, burst);
            AllOk(all', c.ask.now, burst) && Forgot(Keep(some', c.ask.now), all', c.ask.now)
  {
    SameTokens(some, all, c.key, c.ask, burst, from);
    NextOk(Lookup(all, c.key), c.ask.now, c.ask.rate, burst);
    hide Tokens, Spent;
  }

  /** A burst that ten minutes earn back at the rate of every check. */
  ghost predicate EarnedBack(checks: seq<Check>, burst: nat) {
    forall i :: 0 <= i < |checks| ==> burst as real <= IDLE_SECONDS * checks[i].ask.rate
  }

  /** With such a burst, forgetting idle buckets changes no answer of any run. */
  lemma {:induction false} ForgettingChangesNothing(some: Buckets, all: Buckets, checks: seq<Check>, burst: nat,
                                                    from: real)
    requires AllPositive(checks) && EarnedBack(checks, burst)
    requires ClockRises(checks, from) && AllOk(all, from, burst) && Forgot(some, all, from)
    ensures Replies(some, checks, burst, true) == Replies(all, checks, burst, false)
    decreases |checks|
  {
    if checks != [] {
      var c, rest := checks[0], checks[1..];
      ForgotStep(some, all, c, burst, from);
      assert forall i :: 0 <= i < |rest| ==> rest[i] == checks[i + 1];
      ForgettingChangesNothing(Keep(Record(some, c, burst), c.ask.now), Record(all, c, burst), rest, burst, c.ask.now);
    }
  }

  /** The checks of one key, and the answers it gets, within a run of many keys. */
  function AsksOf(checks: seq<Check>, key: string): seq<Ask> {
    if checks == [] then []
    else (if checks[0].key == key then [checks[0].ask] else []) + AsksOf(checks[1..], key)
  }

  function AnswersOf(checks: seq<Check>, answers: seq<Answer>, key: string): seq<Answer>
    requires |checks| == |answers|
  {
    if checks == [] then []
    else (if checks[0].key == key then [answers[0]] else []) + AnswersOf(checks[1..], answers[1..], key)
  }

  lemma {:induction false} AsksOfRun(checks: seq<Check>, key: string, from: real)
    requires AllPositive(checks) && ClockRises(checks, from)
    ensures var asks := AsksOf(checks, key);
            Positive(asks) && Rises(asks) && forall i :: 0 <= i < |asks| ==> from <= asks[i].now
  {
    if checks != [] {
      var rest := checks[1..];
      assert forall i :: 0 <= i < |rest| ==> rest[i] == checks[i + 1];
      AsksOfRun(rest, key, checks[0].ask.now);
    }
  }

  /** Keys do not disturb one another: a key gets the answers it would get alone. */
  lemma {:induction false} KeysAreIndependent(buckets: Buckets, checks: seq<Check>, burst: nat, key: string)
    requires AllPositive(checks)
    ensures Positive(AsksOf(checks, key))
    ensures AnswersOf(checks, Replies(buckets, checks, burst, false), key) ==
            Answers(Lookup(buckets, key), AsksOf(checks, key), burst)
    decreases |checks|
  {
    if checks != [] {
      var c, rest := checks[0], checks[1..];
      var after := Record(buckets, c, burst);
      assert forall i :: 0 <= i < |rest| ==> rest[i] == checks[i + 1];
      KeysAreIndependent(after, rest, burst, key);
      assert Replies(buckets, checks, burst, false)[1..] == Replies(after, rest, burst, false);
      if c.key == key {
        assert AsksOf(checks, key)[1..] == AsksOf(rest, key);
        assert Lookup(after, key) == Some(Next(Lookup(buckets, key), c.ask.now, c.ask.rate, burst));
      } else {
        assert AsksOf(checks, key) == AsksOf(rest, key);
        assert Lookup(after, key) == Lookup(buckets, key);
      }
    }
  }

  /**
   * The limiter as it runs, many keys and idle buckets forgotten: whatever the other keys do, between two
   * checks of a key at most the burst plus what the elapsed time earns is allowed.
   */
  lemma ManyKeysBound(buckets: Buckets, checks: seq<Check>, burst: nat, from: real, key: string)
    requires AllPositive(checks) && EarnedBack(checks, burst)
    requires ClockRises(checks, from) && AllOk(buckets, from, burst) && AsksOf(checks, key) != []
    ensures Allowed(AnswersOf(checks, Replies(buckets, checks, burst, true), key)) as real <=
            burst as real + EarnedOver(AsksOf(checks, key))
  {
    hide Answers, Replies, AsksOf, AnswersOf, EarnedOver;
    ForgettingChangesNothing(buckets, buckets, checks, burst, from);
    KeysAreIndependent(buckets, checks, burst, key);
    AsksOfRun(checks, key, from);
    var b, first := Lookup(buckets, key), AsksOf(checks, key)[0].now;
    assert Ok(b, from, burst);
    assert Ok(b, first, burst);
    WindowBound(b, AsksOf(checks, key), burst);
  }

  /** A key without a bucket starts with the whole burst, as if last checked now. */
  lemma TokensFrom(b: Option<Bucket>, now: real, rate: real, burst: nat, tokens: real, last: real)
    requires tokens == (if b.Some? then b.value.tokens else burst as real)
    requires last == (if b.Some? then b.value.last else now)
    ensures MinReal(burst as real, tokens + (now - last) * rate) == Tokens(b, now, rate, burst)
  {
    if b.None? { NothingEarned(now - last, rate); }
  }

  lemma NothingEarned(elapsed: real, rate: real)
    requires elapsed == 0.0
    ensures elapsed * rate == 0.0
  {
  }

  class RateLimiter {
    const perMinute: real
    const burst: nat
    var buckets: Buckets

    constructor (perMinute: real, burst: nat)
      ensures this.perMinute == perMinute && this.burst == burst && buckets == map[]
    {
      this.perMinute, this.burst, buckets := perMinute, burst, map[];
    }

    /** Whether a request is allowed, the tokens left, and the seconds until the next one. */
    method CheckKey(key: string, override_: Option<real>, now: real) returns (allowed: bool, remaining: int, wait: real)
      requires perMinute > 0.0 && (override_.Some? ==> override_.value >= 0.0)
      modifies this
      ensures var rate := (if override_.Some? && override_.value != 0.0 then override_.value else perMinute) / 60.0;
              Answer(allowed, remaining, wait) == Reply(Lookup(old(buckets), key), now, rate, burst) &&
              buckets == Keep(Record(old(buckets), Check(key, Ask(now, rate)), burst), now)
    {
      var rate := (if override_.Some? && override_.value != 0.0 then override_.value else perMinute) / 60.0;
      var tokens, last := burst as real, now;
      if key in buckets {
        tokens, last := buckets[key].tokens, buckets[key].last;
      }
      TokensFrom(Lookup(buckets, key), now, rate, burst, tokens, last);
      tokens := MinReal(burst as real, tokens + (now - last) * rate);
      hide Tokens;
      allowed := tokens >= 1.0;
      if allowed {
        tokens := tokens - 1.0;
      }
      buckets := buckets[key := Bucket(tokens, now)];
      if |buckets| > MAX_BUCKETS {
        buckets := map k | k in buckets && now - buckets[k].last < IDLE_SECONDS :: buckets[k];
      }
      wait := if allowed then 0.0 else (1.0 - tokens) / rate;
      remaining := tokens.Floor;
    }
  }
}
