/**
 * Login lockout for one source and one user: an attempt counter and a lock, both cache entries that expire
 * on their own. Failed comparisons raise the counter; from the third on they also set a lock.
 */
module Lockout {
  import opened Prelude

  /** A cache entry; it is there while now < expires. */
  datatype Entry = Entry(value: int, expires: int)

  /** What the cache holds for the pair. */
  datatype Keys = Keys(attempt: Option<Entry>, lock: Option<Entry>)

  const NOTHING := Keys(None, None)

  predicate Live(e: Option<Entry>, now: int) {
    e.Some? && now < e.value.expires
  }

  function Read(e: Option<Entry>, now: int): int {
    if Live(e, now) then e.value.value else 0
  }

  function Pow4(n: nat): nat {
    if n == 0 then 1 else 4 * Pow4(n - 1)
  }

  /** Minutes the k-th failure locks for, under a cap of m minutes; nothing before the third. */
  function LockMinutes(k: int, m: int): int {
    if k <= 2 then 0 else Min(Pow4(k - 3), m)
  }

  /** Minutes the counter lives after the k-th failure. The 2.5 minutes of the third are cut to 2. */
  function CounterMinutes(k: int, m: int): int {
    if k <= 3 then 2 else Max(2, Min(10 * Pow4(k - 4), m))
  }

  /** Storing a failed attempt at instant now. */
  function Fail(s: Keys, m: int, now: int): Keys {
    var k := Read(s.attempt, now) + 1;
    Keys(Some(Entry(k, now + CounterMinutes(k, m) * MINUTE)),
         if k <= 2 then s.lock
         else Some(Entry((now + LockMinutes(k, m) * MINUTE) / SECOND, now + LockMinutes(k, m) * MINUTE)))
  }

  predicate Locked(s: Keys, now: int) {
    Read(s.lock, now) > 0
  }

  // ---------------------------------------------------------------------------------------------
  // The cache, computing in floating point
  // ---------------------------------------------------------------------------------------------

  /** math.Pow(4, n), for negative n too. */
  function Power(n: int): real
    decreases if n < 0 then -n else n
  {
    if n == 0 then 1.0 else if n > 0 then 4.0 * Power(n - 1) else Power(n + 1) / 4.0
  }

  function RealMin(a: real, b: real): real {
    if a <= b then a else b
  }

  function RealMax(a: real, b: real): real {
    if a <= b then b else a
  }

  /** time.Duration of a float: cuts the fraction off. */
  function Trunc(x: real): int
    requires x >= 0.0
  {
    x.Floor
  }

  lemma {:induction false} PowerIsPow4(n: nat)
    ensures Power(n) == Pow4(n) as real
    ensures Pow4(n) >= 1
  {
    if n > 0 {
      PowerIsPow4(n - 1);
    }
  }

  lemma {:induction false} NegativePowerIsSmall(n: int)
    requires n < 0
    ensures 0.0 < Power(n) <= 0.25
    decreases -n
  {
    if n < -1 {
      NegativePowerIsSmall(n + 1);
    } else {
      assert Power(0) == 1.0;
    }
  }

  /** The service's float arithmetic, truncations included, gives the whole-minute durations above. */
  lemma DurationsAreWholeMinutes(k: int, m: int)
    requires k >= 1 && m >= 1
    ensures var tmp := RealMin(Power(k - 3), m as real);
            && tmp >= 0.0
            && Trunc(RealMax(RealMin(tmp * 2.5, m as real), 2.0)) == CounterMinutes(k, m)
            && (k >= 3 ==> Trunc(tmp) == LockMinutes(k, m))
  {
    if k < 3 {
      NegativePowerIsSmall(k - 3);
    } else {
      PowerIsPow4(k - 3);
      if k > 3 {
        PowerIsPow4(k - 4);
        assert Pow4(k - 3) == 4 * Pow4(k - 4);
      } else {
        assert Pow4(0) == 1;
      }
    }
  }

  datatype Result = Blocked | Mismatch | Success

  /** A cap of zero or less turns the lockout off. */
  function Attempt(s: Keys, m: int, now: int, correct: bool): (Keys, Result) {
    if m <= 0 then (s, if correct then Success else Mismatch)
    else if Locked(s, now) then (s, Blocked)
    else if correct then (NOTHING, Success)
    else (Fail(s, m, now), Mismatch)
  }

  /**
   * What holds at instant now in every reachable state: a live lock has a live counter of at least three
   * that expires no earlier.
   */
  predicate Sane(s: Keys, now: int) {
    && (s.attempt.Some? ==> s.attempt.value.value >= 1)
    && (Live(s.lock, now) ==>
          && Live(s.attempt, now) && s.attempt.value.value >= 3
          && s.lock.value.expires <= s.attempt.value.expires && s.lock.value.value > 0)
  }

  class AccountLock {
    const maximum: int
    var attempt: Option<Entry>
    var lock: Option<Entry>

    function Held(): Keys
      reads this
    {
      Keys(attempt, lock)
    }

    constructor (maximum: int)
      ensures this.maximum == maximum && Held() == NOTHING
    {
      this.maximum := maximum;
      this.attempt := None;
      this.lock := None;
    }

    method HasAccountLockout(now: int) returns (lockout: int, attempts: int)
      ensures maximum >= 1 ==> lockout == Read(lock, now) && attempts == Read(attempt, now)
      ensures maximum <= 0 ==> lockout == 0 && attempts == 0
    {
      if maximum <= 0 {
        return 0, 0;
      }
      return Read(lock, now), Read(attempt, now);
    }

    method StoreLoginAttempt(now: int) returns (lockout: int, attempts: int)
      requires Read(attempt, now) >= 0
      modifies this`attempt, this`lock
      ensures maximum >= 1 ==> Held() == Fail(old(Held()), maximum, now)
      ensures maximum >= 1 ==> attempts == Read(old(attempt), now) + 1
      ensures maximum >= 1 ==> lockout == if attempts <= 2 then 0 else lock.value.value
      ensures maximum <= 0 ==> Held() == old(Held()) && lockout == 0 && attempts == 0
    {
      if maximum <= 0 {
        return 0, 0;
      }
      attempts := Read(attempt, now) + 1;
      DurationsAreWholeMinutes(attempts, maximum);
      var tmp := RealMin(Power(attempts - 3), maximum as real);
      var attemptTTL := Trunc(RealMax(RealMin(tmp * 2.5, maximum as real), 2.0)) * MINUTE;
      attempt := Some(Entry(attempts, now + attemptTTL));
      if attempts <= 2 {
        return 0, attempts;
      }
      var lockoutTTL := Trunc(tmp) * MINUTE;
      lock := Some(Entry((now + lockoutTTL) / SECOND, now + lockoutTTL));
      lockout := lock.value.value;
    }

    method ResetLoginAttempts()
      modifies this`attempt, this`lock
      ensures Held() == if maximum <= 0 then old(Held()) else NOTHING
    {
      if maximum > 0 {
        attempt := None;
        lock := None;
      }
    }

    /** The lockout part of AuthLocalUser; correct is the password comparison's answer. */
    method Login(now: int, correct: bool) returns (result: Result)
      requires Sane(Held(), now)
      modifies this`attempt, this`lock
      ensures (Held(), result) == Attempt(old(Held()), maximum, now, correct)
    {
      var lockout, _ := HasAccountLockout(now);
      if lockout > 0 {
        return Blocked;
      }
      if !correct {
        var _, _ := StoreLoginAttempt(now);
        return Mismatch;
      }
      ResetLoginAttempts();
      return Success;
    }
  }

  // ---------------------------------------------------------------------------------------------
  // Runs
  // ---------------------------------------------------------------------------------------------

  lemma DurationsAreOrdered(k: int, m: int)
    requires k >= 1 && m >= 1
    ensures CounterMinutes(k, m) >= 2 && LockMinutes(k, m) <= CounterMinutes(k, m)
    ensures k >= 3 ==> LockMinutes(k, m) >= 1
  {
    if k >= 3 {
      PowerIsPow4(k - 3);
    }
  }

  lemma AttemptKeepsSane(s: Keys, m: int, now: int, correct: bool)
    requires m >= 1 && now >= 0 && Sane(s, now)
    ensures Sane(Attempt(s, m, now, correct).0, now)
  {
    DurationsAreOrdered(Read(s.attempt, now) + 1, m);
  }

  /** One login attempt: when, and whether the password is right. */
  datatype Event = Event(at: int, correct: bool)

  predicate Ordered(es: seq<Event>) {
    && (forall i | 0 <= i < |es| :: es[i].at >= 0)
    && forall i, j | 0 <= i < j < |es| :: es[i].at <= es[j].at
  }

  function After(s: Keys, m: int, es: seq<Event>): Keys
    decreases |es|
  {
    if es == [] then s
    else After(Attempt(s, m, es[0].at, es[0].correct).0, m, es[1..])
  }

  /** The instants of the failed comparisons. */
  function FailureTimes(s: Keys, m: int, es: seq<Event>): seq<int>
    decreases |es|
  {
    if es == [] then []
    else
      var (s', result) := Attempt(s, m, es[0].at, es[0].correct);
      (if result == Mismatch then [es[0].at] else []) + FailureTimes(s', m, es[1..])
  }

  predicate NoSuccess(s: Keys, m: int, es: seq<Event>)
    decreases |es|
  {
    es == [] ||
    (var (s', result) := Attempt(s, m, es[0].at, es[0].correct);
     result != Success && NoSuccess(s', m, es[1..]))
  }

  lemma {:induction false} RunKeepsSane(s: Keys, m: int, es: seq<Event>, now: int)
    requires m >= 1 && Ordered(es) && (forall i | 0 <= i < |es| :: es[i].at <= now)
    requires Sane(s, if es == [] then now else es[0].at)
    ensures Sane(After(s, m, es), now)
    decreases |es|
  {
    if es != [] {
      AttemptKeepsSane(s, m, es[0].at, es[0].correct);
      assert forall i | 0 <= i < |es[1..]| :: es[1..][i] == es[i + 1];
      RunKeepsSane(Attempt(s, m, es[0].at, es[0].correct).0, m, es[1..], now);
    }
  }

  /** While the lock is live every attempt is refused before the password is looked at, and changes nothing. */
  lemma LockBlocksEveryAttempt(s: Keys, m: int, now: int, correct: bool)
    requires m >= 1 && Sane(s, now)
    ensures Attempt(s, m, now, correct).1 == Blocked <==> Live(s.lock, now)
    ensures Live(s.lock, now) ==> Attempt(s, m, now, correct).0 == s
    ensures !Live(s.lock, now) ==> Attempt(s, m, now, correct).1 == if correct then Success else Mismatch
  {}

  lemma {:induction false} AfterOneMore(s: Keys, m: int, es: seq<Event>, e: Event)
    ensures After(s, m, es + [e]) == Attempt(After(s, m, es), m, e.at, e.correct).0
    decreases |es|
  {
    if es == [] {
      assert (es + [e])[1..] == [];
    } else {
      assert (es + [e])[1..] == es[1..] + [e];
      AfterOneMore(Attempt(s, m, es[0].at, es[0].correct).0, m, es[1..], e);
    }
  }

  /**
   * In every run an attempt is compared, whether it then fails or succeeds, exactly at instants with no live
   * lock; at all others it is blocked and leaves no trace.
   */
  lemma ComparisonsNeedAnOpenLock(m: int, es: seq<Event>, i: nat)
    requires m >= 1 && Ordered(es) && i < |es|
    ensures var s := After(NOTHING, m, es[..i]);
            var (s', result) := Attempt(s, m, es[i].at, es[i].correct);
            && s' == After(NOTHING, m, es[..i + 1])
            && (result == Blocked <==> Live(s.lock, es[i].at))
            && (result == Blocked ==> s' == s)
            && (result == Success <==> es[i].correct && !Live(s.lock, es[i].at))
  {
    RunKeepsSane(NOTHING, m, es[..i], es[i].at);
    assert es[..i + 1] == es[..i] + [es[i]];
    AfterOneMore(NOTHING, m, es[..i], es[i]);
    LockBlocksEveryAttempt(After(NOTHING, m, es[..i]), m, es[i].at, es[i].correct);
  }

  /** A success wipes the slate: the next failure is counted as the first, for two minutes, and locks nothing. */
  lemma FirstFailureAfterSuccess(s: Keys, m: int, t: int, t1: int)
    requires m >= 1 && Attempt(s, m, t, true).1 == Success
    ensures Attempt(Attempt(s, m, t, true).0, m, t1, false)
         == (Keys(Some(Entry(1, t1 + 2 * MINUTE)), None), Mismatch)
  {}

  /** With a cap of zero or less nobody is ever locked out and nothing is stored. */
  lemma NoCapNoLockout(s: Keys, m: int, now: int, correct: bool)
    requires m <= 0
    ensures Attempt(s, m, now, correct) == (s, if correct then Success else Mismatch)
  {}

  // ---------------------------------------------------------------------------------------------
  // How fast comparisons can fail
  // ---------------------------------------------------------------------------------------------

  predicate Rising(ts: seq<int>) {
    && (forall i | 0 <= i < |ts| :: ts[i] >= 0)
    && forall i, j | 0 <= i < j < |ts| :: ts[i] <= ts[j]
  }

  /** At each of these instants in turn the lock is off and a comparison fails. */
  predicate AllFail(s: Keys, m: int, ts: seq<int>)
    decreases |ts|
  {
    ts == [] || (!Locked(s, ts[0]) && AllFail(Fail(s, m, ts[0]), m, ts[1..]))
  }

  /** Whole minutes that j failures beyond the third must take: two for every three. */
  function Rest(j: int): int {
    if j <= 0 then 0 else j - j / 3
  }

  /** A failure has just left the counter at c, and with it the lock that c calls for. */
  predicate JustFailed(s: Keys, t: int, c: int) {
    && c >= 1 && s.attempt.Some? && s.attempt.value.value == c && s.attempt.value.expires >= t + 2 * MINUTE
    && (c >= 3 ==> s.lock.Some? && s.lock.value.value > 0 && s.lock.value.expires >= t + MINUTE)
  }

  lemma FailLeavesJustFailed(s: Keys, m: int, t: int)
    requires m >= 1 && t >= 0 && Read(s.attempt, t) >= 0
    ensures JustFailed(Fail(s, m, t), t, Read(s.attempt, t) + 1)
  {
    DurationsAreOrdered(Read(s.attempt, t) + 1, m);
  }

  /** Minutes between the failure that left the counter at c and the next, which leaves it at c1. */
  function Pause(c: int, c1: int): int {
    if c1 == 1 then 2 else if c >= 3 then 1 else 0
  }

  /** The next failure either finds the counter gone, two minutes on, or raises it and waits out the lock. */
  lemma NextFailure(s: Keys, m: int, t: int, c: int, t1: int)
    requires m >= 1 && 0 <= t <= t1 && JustFailed(s, t, c) && !Locked(s, t1)
    ensures var c1 := Read(s.attempt, t1) + 1;
            && JustFailed(Fail(s, m, t1), t1, c1)
            && (c1 == 1 || c1 == c + 1)
            && t1 - t >= Pause(c, c1) * MINUTE
  {
    FailLeavesJustFailed(s, m, t1);
  }

  /** Failures still free once the counter stands at c. */
  function Slack(c: int): int {
    if c < 3 then 3 - c else 0
  }

  lemma MinutesAreMonotone(a: int, b: int)
    requires a <= b
    ensures a * MINUTE <= b * MINUTE
  {}

  lemma RestStep(n: int, c: int, c1: int)
    requires n >= 1 && c >= 1 && (c1 == 1 || c1 == c + 1)
    ensures Rest(n - Slack(c)) * MINUTE <= Pause(c, c1) * MINUTE + Rest(n - 1 - Slack(c1)) * MINUTE
    ensures n == 1 ==> Rest(n - 1 - Slack(c1)) * MINUTE == 0
  {
    assert Rest(n - Slack(c)) <= Pause(c, c1) + Rest(n - 1 - Slack(c1));
    MinutesAreMonotone(Rest(n - Slack(c)), Pause(c, c1) + Rest(n - 1 - Slack(c1)));
  }

  lemma {:induction false} FailuresTakeTime(s: Keys, m: int, t: int, c: int, ts: seq<int>)
    requires m >= 1 && t >= 0 && JustFailed(s, t, c)
    requires ts != [] && t <= ts[0] && Rising(ts) && AllFail(s, m, ts)
    ensures ts[|ts| - 1] - t >= Rest(|ts| - Slack(c)) * MINUTE
    decreases |ts|
  {
    var t1 := ts[0];
    NextFailure(s, m, t, c, t1);
    var c1 := Read(s.attempt, t1) + 1;
    RestStep(|ts|, c, c1);
    if |ts| > 1 {
      FailuresTakeTime(Fail(s, m, t1), m, t1, c1, ts[1..]);
    }
  }

  lemma {:induction false} FailureTimesRise(s: Keys, m: int, es: seq<Event>)
    requires Ordered(es)
    ensures Rising(FailureTimes(s, m, es))
    ensures forall t | t in FailureTimes(s, m, es) :: es != [] && es[0].at <= t
    decreases |es|
  {
    if es != [] {
      var s' := Attempt(s, m, es[0].at, es[0].correct).0;
      FailureTimesRise(s', m, es[1..]);
      var rest := FailureTimes(s', m, es[1..]);
      assert forall i | 0 <= i < |rest| :: rest[i] in rest;
    }
  }

  lemma {:induction false} FailureTimesFail(s: Keys, m: int, es: seq<Event>)
    requires m >= 1 && NoSuccess(s, m, es)
    ensures AllFail(s, m, FailureTimes(s, m, es))
    decreases |es|
  {
    if es != [] {
      var (s', result) := Attempt(s, m, es[0].at, es[0].correct);
      FailureTimesFail(s', m, es[1..]);
      var rest := FailureTimes(s', m, es[1..]);
      assert ([es[0].at] + rest)[1..] == rest && [] + rest == rest;
    }
  }

  lemma RestBeatsThirds(n: int)
    requires n >= 1
    ensures (n - 1) / 3 * MINUTE <= Rest(n - 3) * MINUTE
  {
    assert (n - 1) / 3 <= Rest(n - 3);
    MinutesAreMonotone((n - 1) / 3, Rest(n - 3));
  }

  lemma RestWithSlack(n: int, c: int)
    requires c >= 1
    ensures Rest(n - 3) * MINUTE <= Rest(n - 1 - Slack(c)) * MINUTE
  {
    assert Rest(n - 3) <= Rest(n - 1 - Slack(c));
    MinutesAreMonotone(Rest(n - 3), Rest(n - 1 - Slack(c)));
  }

  lemma SpanFrom(s: Keys, m: int, ts: seq<int>)
    requires m >= 1 && ts != [] && Rising(ts) && AllFail(s, m, ts) && Sane(s, ts[0])
    ensures ts[|ts| - 1] - ts[0] >= Rest(|ts| - 3) * MINUTE
  {
    var c := Read(s.attempt, ts[0]) + 1;
    FailLeavesJustFailed(s, m, ts[0]);
    if |ts| > 1 {
      FailuresTakeTime(Fail(s, m, ts[0]), m, ts[0], c, ts[1..]);
      RestWithSlack(|ts|, c);
    }
  }

  lemma OrderedParts(before: seq<Event>, window: seq<Event>)
    requires Ordered(before + window)
    ensures Ordered(before) && Ordered(window)
    ensures forall i | window != [] && 0 <= i < |before| :: before[i].at <= window[0].at
  {
    var all := before + window;
    assert forall i | 0 <= i < |before| :: all[i] == before[i];
    assert forall i | 0 <= i < |window| :: all[|before| + i] == window[i];
  }

  /**
   * From any reachable state, whatever the waiting strategy, n failed comparisons with no success among
   * them span at least Rest(n - 3) minutes: two minutes for every three after the first three.
   */
  lemma RateBound(m: int, before: seq<Event>, window: seq<Event>)
    requires m >= 1 && Ordered(before + window)
    requires NoSuccess(After(NOTHING, m, before), m, window)
    ensures var ts := FailureTimes(After(NOTHING, m, before), m, window);
            ts != [] ==>
              && ts[|ts| - 1] - ts[0] >= Rest(|ts| - 3) * MINUTE
              && ts[|ts| - 1] - ts[0] >= (|ts| - 1) / 3 * MINUTE
  {
    var s := After(NOTHING, m, before);
    var ts := FailureTimes(s, m, window);
    OrderedParts(before, window);
    FailureTimesFail(s, m, window);
    FailureTimesRise(s, m, window);
    if ts != [] {
      assert ts[0] in ts;
      RunKeepsSane(NOTHING, m, before, ts[0]);
      SpanFrom(s, m, ts);
      RestBeatsThirds(|ts|);
    }
  }

  /** Three failures at once, then two minutes of waiting, over and over; a lone last one waits just one. */
  function Schedule(n: nat, t: int): (ts: seq<int>)
    ensures |ts| == n
  {
    if n <= 3 then seq(n, i => t)
    else if n == 4 then [t, t, t, t + MINUTE]
    else [t, t, t] + Schedule(n - 3, t + 2 * MINUTE)
  }

  /** Three failures at one instant, from a clean slate, are all let through and leave these entries. */
  lemma ThreeAtOnce(s: Keys, m: int, t: int)
    requires m >= 1 && t >= 0 && !Live(s.attempt, t) && !Live(s.lock, t)
    ensures var s1 := Fail(s, m, t);
            var s2 := Fail(s1, m, t);
            var s3 := Fail(s2, m, t);
            && !Locked(s, t) && !Locked(s1, t) && !Locked(s2, t)
            && s3.attempt == Some(Entry(3, t + 2 * MINUTE)) && s3.lock.Some? && s3.lock.value.expires == t + MINUTE
  {
    assert Pow4(0) == 1;
  }

  lemma ThreeThenFail(s: Keys, m: int, t: int, rest: seq<int>)
    requires m >= 1 && t >= 0 && !Live(s.attempt, t) && !Live(s.lock, t)
    requires AllFail(Fail(Fail(Fail(s, m, t), m, t), m, t), m, rest)
    ensures AllFail(s, m, [t, t, t] + rest)
  {
    ThreeAtOnce(s, m, t);
    var s1 := Fail(s, m, t);
    assert ([t] + rest)[1..] == rest && ([t, t] + rest)[1..] == [t] + rest && ([t, t, t] + rest)[1..] == [t, t] + rest;
    assert AllFail(Fail(s1, m, t), m, [t] + rest);
    assert AllFail(s1, m, [t, t] + rest);
  }

  lemma {:induction false} AllFailPrefix(s: Keys, m: int, ts: seq<int>, n: nat)
    requires n <= |ts| && AllFail(s, m, ts)
    ensures AllFail(s, m, ts[..n])
    decreases |ts|
  {
    if n > 0 {
      AllFailPrefix(Fail(s, m, ts[0]), m, ts[1..], n - 1);
      assert ts[..n][1..] == ts[1..][..n - 1];
    }
  }

  lemma {:induction false} ScheduleFails(s: Keys, m: int, n: nat, t: int)
    requires m >= 1 && t >= 0 && !Live(s.attempt, t) && !Live(s.lock, t)
    ensures AllFail(s, m, Schedule(n, t))
    decreases n
  {
    var s3 := Fail(Fail(Fail(s, m, t), m, t), m, t);
    ThreeAtOnce(s, m, t);
    if n <= 4 {
      assert AllFail(s3, m, [t + MINUTE]);
      ThreeThenFail(s, m, t, [t + MINUTE]);
      AllFailPrefix(s, m, [t, t, t] + [t + MINUTE], n);
      assert Schedule(n, t) == ([t, t, t] + [t + MINUTE])[..n];
    } else {
      ScheduleFails(s3, m, n - 3, t + 2 * MINUTE);
      ThreeThenFail(s, m, t, Schedule(n - 3, t + 2 * MINUTE));
    }
  }

  lemma RestOfThreeMore(j: int)
    requires j >= -1
    ensures Rest(j + 3) * MINUTE == 2 * MINUTE + Rest(j) * MINUTE
  {
    assert Rest(j + 3) == 2 + Rest(j);
  }

  lemma {:induction false} ScheduleSpan(n: nat, t: int)
    requires t >= 0
    ensures Rising(Schedule(n, t)) && forall x | x in Schedule(n, t) :: x >= t
    ensures n >= 1 ==> Schedule(n, t)[0] == t && Schedule(n, t)[n - 1] == t + Rest(n - 3) * MINUTE
    decreases n
  {
    if n > 4 {
      ScheduleSpan(n - 3, t + 2 * MINUTE);
      RestOfThreeMore(n - 6);
      var rest := Schedule(n - 3, t + 2 * MINUTE);
      assert forall i | 0 <= i < |rest| :: rest[i] in rest;
    }
  }

  /** The bound cannot be improved: for every cap and every n some strategy takes exactly that long. */
  lemma RateBoundIsSharp(m: int, n: nat)
    requires m >= 1 && n >= 1
    ensures exists ts :: |ts| == n && Rising(ts) && AllFail(NOTHING, m, ts)
                         && ts[n - 1] - ts[0] == Rest(n - 3) * MINUTE
  {
    ScheduleFails(NOTHING, m, n, 0);
    ScheduleSpan(n, 0);
  }

  // ---------------------------------------------------------------------------------------------
  // Escalation
  // ---------------------------------------------------------------------------------------------

  function AfterFailures(s: Keys, m: int, ts: seq<int>): Keys
    decreases |ts|
  {
    if ts == [] then s else Fail(AfterFailures(s, m, ts[..|ts| - 1]), m, ts[|ts| - 1])
  }

  /** Every failure but the first comes before the counter left by the one before it expires. */
  predicate Brisk(m: int, ts: seq<int>)
    decreases |ts|
  {
    |ts| <= 1 ||
    (Brisk(m, ts[..|ts| - 1]) && Live(AfterFailures(NOTHING, m, ts[..|ts| - 1]).attempt, ts[|ts| - 1]))
  }

  /**
   * In such a stretch the k-th failure locks for exactly min(4^(k-3), m) minutes from the third on, and not
   * before. The value of the lock is the second it ends in.
   */
  lemma {:induction false} Escalation(m: int, ts: seq<int>)
    requires m >= 1 && ts != [] && Brisk(m, ts)
    ensures var s := AfterFailures(NOTHING, m, ts);
            var k, last := |ts|, ts[|ts| - 1];
            && s.attempt == Some(Entry(k, last + CounterMinutes(k, m) * MINUTE))
            && (k < 3 ==> s.lock.None?)
            && (k >= 3 ==> s.lock.Some? && s.lock.value.expires == last + Min(Pow4(k - 3), m) * MINUTE
                           && s.lock.value.value == s.lock.value.expires / SECOND)
    decreases |ts|
  {
    if |ts| > 1 {
      Escalation(m, ts[..|ts| - 1]);
    } else {
      assert AfterFailures(NOTHING, m, ts[..0]) == NOTHING;
    }
  }
}
