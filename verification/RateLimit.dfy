/** The in-memory rate limiter: the generic cell rate algorithm in its virtual
    scheduling form (Annex A of ITU-T Recommendation I.371).  Times and durations are
    nanoseconds; calls are serialised by the limiter's mutex. */
module RateLimit {
  import opened Basics

  datatype Limit = Limit(rate: int, burst: int, period: int)

  /** `Panic` is the division by zero the code runs into for a zero rate or interval. */
  datatype Answer = Panic | Reply(allowed: int, remaining: int, retryAfter: int, resetAfter: int)

  /** Go's integer division rounds towards zero. */
  function Quotient(a: int, b: int): int
    requires b != 0
  {
    if a >= 0 then a / b else -((-a) / b)
  }

  /** What is left over is smaller than the divisor and has the sign of the dividend. */
  lemma QuotientTruncates(a: int, b: int)
    requires b != 0
    ensures var r := a - b * Quotient(a, b);
            && (a >= 0 ==> 0 <= r) && (a <= 0 ==> r <= 0)
            && (b > 0 ==> -b < r < b) && (b < 0 ==> b < r < -b)
  {
    var n := if a >= 0 then a else -a;
    assert n == b * (n / b) + n % b;
    assert b * -(n / b) == -(b * (n / b));
  }

  /** The time one call costs. */
  function Interval(lim: Limit): int
    requires lim.rate != 0
  {
    Quotient(lim.period, lim.rate)
  }

  /** The theoretical arrival time the algorithm starts from. */
  function Arrival(entry: Option<int>, now: int): int {
    if entry.None? || entry.value < now then now else entry.value
  }

  /** The earliest time at which a call would be allowed. */
  function AllowAt(entry: Option<int>, lim: Limit, now: int): int
    requires lim.rate != 0
  {
    Arrival(entry, now) + Interval(lim) - Interval(lim) * lim.burst
  }

  predicate Allows(entry: Option<int>, lim: Limit, now: int) {
    lim.rate != 0 && now >= AllowAt(entry, lim, now)
  }

  function Respond(entry: Option<int>, lim: Limit, now: int): Answer {
    if lim.rate == 0 then Panic
    else
      var t := Interval(lim);
      var tat := Arrival(entry, now);
      var allowAt := AllowAt(entry, lim, now);
      var diff := now - allowAt;
      if diff < 0 then Reply(0, 0, allowAt - now, Max(tat - now, 0))
      else if t == 0 then Panic
      else
        var left := Quotient(diff, t);
        Reply(1, if left > lim.burst then lim.burst else left, -1, Max(tat + t - now, 0))
  }

  function Entry(entries: map<string, int>, key: string): Option<int> {
    if key in entries then Some(entries[key]) else None
  }

  /** Drop the keys whose arrival time has passed. */
  function Fresh(entries: map<string, int>, now: int): map<string, int> {
    map k | k in entries && entries[k] >= now :: entries[k]
  }

  datatype Call = Call(key: string, limit: Limit, now: int)

  /** A limiter that never forgets a key. */
  function Remember(entries: map<string, int>, c: Call): map<string, int> {
    if Allows(Entry(entries, c.key), c.limit, c.now)
    then entries[c.key := Arrival(Entry(entries, c.key), c.now) + Interval(c.limit)]
    else entries
  }

  /** The limiter as it is: after an allowed call it drops what has passed. */
  function After(entries: map<string, int>, c: Call): map<string, int> {
    if Allows(Entry(entries, c.key), c.limit, c.now) && Interval(c.limit) != 0
    then Fresh(Remember(entries, c), c.now)
    else Remember(entries, c)
  }

  function Answers(entries: map<string, int>, calls: seq<Call>): (a: seq<Answer>)
    ensures |a| == |calls|
    decreases |calls|
  {
    if calls == [] then []
    else [Respond(Entry(entries, calls[0].key), calls[0].limit, calls[0].now)]
         + Answers(After(entries, calls[0]), calls[1..])
  }

  function AnswersForever(entries: map<string, int>, calls: seq<Call>): (a: seq<Answer>)
    ensures |a| == |calls|
    decreases |calls|
  {
    if calls == [] then []
    else [Respond(Entry(entries, calls[0].key), calls[0].limit, calls[0].now)]
         + AnswersForever(Remember(entries, calls[0]), calls[1..])
  }

  ghost predicate InTimeOrder(calls: seq<Call>, from: int) {
    && (forall i :: 0 <= i < |calls| ==> from <= calls[i].now)
    && (forall i, j :: 0 <= i < j < |calls| ==> calls[i].now <= calls[j].now)
  }

  // ---- Forgetting is unobservable ----

  /** `m` is `full` without some keys whose time had passed by `now`. */
  ghost predicate Forgot(m: map<string, int>, full: map<string, int>, now: int) {
    && (forall k :: k in m ==> k in full && m[k] == full[k])
    && (forall k :: k in full && k !in m ==> full[k] < now)
  }

  lemma ForgettingStep(m: map<string, int>, full: map<string, int>, c: Call, now: int)
    requires Forgot(m, full, now) && now <= c.now
    ensures Respond(Entry(m, c.key), c.limit, c.now) == Respond(Entry(full, c.key), c.limit, c.now)
    ensures Forgot(After(m, c), Remember(full, c), c.now)
  {
    assert Arrival(Entry(m, c.key), c.now) == Arrival(Entry(full, c.key), c.now);
  }

  /** Every answer equals that of a limiter that never forgets, for any limits at all. */
  lemma {:induction false} CleanupUnobservable(m: map<string, int>, full: map<string, int>,
                                               calls: seq<Call>, now: int)
    requires Forgot(m, full, now) && InTimeOrder(calls, now)
    ensures Answers(m, calls) == AnswersForever(full, calls)
    decreases |calls|
  {
    if calls == [] {
    } else {
      ForgettingStep(m, full, calls[0], now);
      CleanupUnobservable(After(m, calls[0]), Remember(full, calls[0]), calls[1..], calls[0].now);
    }
  }

  // ---- The cost of a call ----

  /** The time one call costs is the period divided by the rate, rounded down. */
  lemma IntervalIsPeriodOverRate(lim: Limit)
    requires lim.rate > 0 && lim.period > 0
    ensures Interval(lim) == lim.period / lim.rate
    ensures lim.rate * Interval(lim) <= lim.period < lim.rate * (Interval(lim) + 1)
  {
    var q := lim.period / lim.rate;
    assert lim.period == lim.rate * q + lim.period % lim.rate;
    assert lim.rate * (q + 1) == lim.rate * q + lim.rate;
  }

  lemma PositiveInterval(lim: Limit)
    requires lim.rate > 0 && lim.period >= lim.rate
    ensures Interval(lim) == lim.period / lim.rate > 0
  {
    IntervalIsPeriodOverRate(lim);
    assert lim.rate * (Interval(lim) + 1) == lim.rate * Interval(lim) + lim.rate;
  }

  /** An allowed call moves the key's arrival time, at least the present, by `t` with
      rate * t <= period < rate * (t + 1). */
  lemma AllowedCallCosts(entries: map<string, int>, c: Call)
    requires c.limit.rate > 0 && c.limit.period >= c.limit.rate
    requires Respond(Entry(entries, c.key), c.limit, c.now).allowed == 1
    ensures c.key in After(entries, c)
    ensures var t := After(entries, c)[c.key] - (if c.key in entries then Max(entries[c.key], c.now) else c.now);
            c.limit.rate * t <= c.limit.period < c.limit.rate * (t + 1)
  {
    IntervalIsPeriodOverRate(c.limit);
  }

  // ---- The window bound ----

  predicate InWindow(c: Call, key: string, t: int, length: int) {
    c.key == key && t <= c.now <= t + length
  }

  /** How many calls for `key` between `t` and `t + length` were allowed. */
  function Granted(calls: seq<Call>, answers: seq<Answer>, key: string, t: int, length: int): nat
    requires |answers| == |calls|
    decreases |calls|
  {
    if calls == [] then 0
    else (if InWindow(calls[0], key, t, length) && answers[0].Reply? && answers[0].allowed == 1 then 1 else 0)
         + Granted(calls[1..], answers[1..], key, t, length)
  }

  /** A call never moves a key's arrival time back. */
  lemma ArrivalGrows(full: map<string, int>, c: Call, key: string, t: int)
    requires c.key == key ==> c.limit.rate != 0 && Interval(c.limit) > 0
    ensures Arrival(Entry(full, key), t) <= Arrival(Entry(Remember(full, c), key), t)
  {
  }

  /** An allowed call in the window fits under the bound. */
  lemma GrantPays(entry: Option<int>, lim: Limit, now: int, t: int, length: int)
    requires lim.rate != 0 && Interval(lim) > 0 && Allows(entry, lim, now) && t <= now <= t + length
    ensures Arrival(entry, t) + Interval(lim) <= t + length + Interval(lim) * lim.burst
    ensures Arrival(entry, t) <= Arrival(entry, now)
  {
  }

  /** The first call counts iff it is in the window and allowed. */
  lemma GrantedFirst(full: map<string, int>, calls: seq<Call>, key: string, lim: Limit, t: int, length: int)
    requires lim.rate != 0 && Interval(lim) > 0 && calls != [] && (calls[0].key == key ==> calls[0].limit == lim)
    ensures var c, full' := calls[0], Remember(full, calls[0]);
            Granted(calls, AnswersForever(full, calls), key, t, length)
            == (if InWindow(c, key, t, length) && Allows(Entry(full, key), lim, c.now) then 1 else 0)
               + Granted(calls[1..], AnswersForever(full', calls[1..]), key, t, length)
  {
    assert AnswersForever(full, calls)[1..] == AnswersForever(Remember(full, calls[0]), calls[1..]);
  }

  /** `n` calls granted from an arrival time on fit under the bound. */
  predicate Fits(arrival: int, n: nat, interval: int, bound: int) {
    n > 0 ==> arrival + n * interval <= bound
  }

  lemma FitsMore(arrival: int, later: int, n: nat, interval: int, bound: int)
    requires arrival + interval <= later && Fits(later, n, interval, bound) && arrival + interval <= bound
    ensures Fits(arrival, n + 1, interval, bound)
  {
    assert (n + 1) * interval == n * interval + interval;
  }

  lemma GrantFits(full: map<string, int>, c: Call, lim: Limit, t: int, length: int, n: nat)
    requires lim.rate != 0 && Interval(lim) > 0 && c.limit == lim
    requires Allows(Entry(full, c.key), lim, c.now) && t <= c.now <= t + length
    requires Fits(Arrival(Entry(Remember(full, c), c.key), t), n, Interval(lim), t + length + Interval(lim) * lim.burst)
    ensures Fits(Arrival(Entry(full, c.key), t), n + 1, Interval(lim), t + length + Interval(lim) * lim.burst)
  {
    GrantPays(Entry(full, c.key), lim, c.now, t, length);
    FitsMore(Arrival(Entry(full, c.key), t), Arrival(Entry(Remember(full, c), c.key), t), n, Interval(lim),
             t + length + Interval(lim) * lim.burst);
  }

  lemma {:induction false} GrantedCosts(full: map<string, int>, calls: seq<Call>, key: string,
                                        lim: Limit, t: int, length: int)
    requires lim.rate != 0 && Interval(lim) > 0
    requires forall i :: 0 <= i < |calls| && calls[i].key == key ==> calls[i].limit == lim
    ensures Fits(Arrival(Entry(full, key), t), Granted(calls, AnswersForever(full, calls), key, t, length),
                 Interval(lim), t + length + Interval(lim) * lim.burst)
    decreases |calls|
  {
    if calls == [] {
    } else {
      var c, rest, full' := calls[0], calls[1..], Remember(full, calls[0]);
      GrantedCosts(full', rest, key, lim, t, length);
      GrantedFirst(full, calls, key, lim, t, length);
      if InWindow(c, key, t, length) && Allows(Entry(full, key), lim, c.now) {
        GrantFits(full, c, lim, t, length, Granted(rest, AnswersForever(full', rest), key, t, length));
      } else {
        ArrivalGrows(full, c, key, t);
      }
    }
  }

  lemma DivisionBound(n: int, d: int, t: int)
    requires t > 0
    ensures n * t <= d <==> n <= d / t
  {
    var q, r := d / t, d % t;
    assert d == t * q + r && 0 <= r < t;
    if n <= q {
      assert n * t <= q * t;
    } else {
      assert n * t >= (q + 1) * t;
    }
  }

  lemma CostBound(n: int, cost: int, length: int, i: int, b: int)
    requires i > 0 && cost == n * i && cost <= length + i * b
    ensures n <= b + length / i
  {
    assert (n - b) * i == n * i - i * b;
    DivisionBound(n - b, length, i);
  }

  /** In every run with non-decreasing times and one limit for the key (any for the other
      keys), the calls allowed in an interval of length L number at most
      burst + floor(L / T), and none when that is negative. */
  lemma WindowBound(calls: seq<Call>, start: int, key: string, lim: Limit, t: int, length: nat)
    requires lim.rate != 0 && Interval(lim) > 0
    requires InTimeOrder(calls, start)
    requires forall i :: 0 <= i < |calls| && calls[i].key == key ==> calls[i].limit == lim
    ensures Granted(calls, Answers(map[], calls), key, t, length)
            <= Max(0, lim.burst + length / Interval(lim))
    ensures lim.rate > 0 && lim.period > 0 ==>
              && lim.period / lim.rate > 0
              && Granted(calls, Answers(map[], calls), key, t, length)
                 <= Max(0, lim.burst + length / (lim.period / lim.rate))
  {
    if lim.rate > 0 && lim.period > 0 {
      IntervalIsPeriodOverRate(lim);
    }
    CleanupUnobservable(map[], map[], calls, start);
    GrantedCosts(map[], calls, key, lim, t, length);
    var n, i := Granted(calls, Answers(map[], calls), key, t, length), Interval(lim);
    if n > 0 {
      assert Arrival(Entry(map[], key), t) == t;
      CostBound(n, n * i, length, i, lim.burst);
    }
  }

  // ---- What is never denied ----

  /** The calls for `key` come at least `gap` apart. */
  ghost predicate SpacedBy(calls: seq<Call>, key: string, gap: int) {
    forall i, j :: 0 <= i < j < |calls| && calls[i].key == key && calls[j].key == key ==>
      calls[i].now + gap <= calls[j].now
  }

  lemma {:induction false} SpacedAnswers(full: map<string, int>, calls: seq<Call>, key: string, lim: Limit)
    requires lim.rate != 0 && Interval(lim) > 0 && lim.burst >= 1 && SpacedBy(calls, key, Interval(lim))
    requires forall i :: 0 <= i < |calls| && calls[i].key == key ==>
               calls[i].limit == lim && (key in full ==> full[key] <= calls[i].now)
    ensures forall i :: 0 <= i < |calls| && calls[i].key == key ==>
              AnswersForever(full, calls)[i].Reply? && AnswersForever(full, calls)[i].allowed == 1
    decreases |calls|
  {
    if calls == [] {
    } else {
      var c := calls[0];
      assert forall i :: 0 <= i < |calls[1..]| ==> calls[1..][i] == calls[i + 1];
      if c.key == key {
        OnTimeAllowed(Entry(full, key), lim, c.now);
      }
      SpacedAnswers(Remember(full, c), calls[1..], key, lim);
    }
  }

  lemma OnTimeAllowed(entry: Option<int>, lim: Limit, now: int)
    requires lim.rate != 0 && Interval(lim) > 0 && lim.burst >= 1 && (entry.Some? ==> entry.value <= now)
    ensures Allows(entry, lim, now) && Arrival(entry, now) == now
    ensures Respond(entry, lim, now).Reply? && Respond(entry, lim, now).allowed == 1
  {
    assert Interval(lim) * lim.burst >= Interval(lim);
  }

  /** A key with a burst of at least one whose calls come at least period / rate apart is
      never denied, whatever other keys do. */
  lemma SpacedNeverDenied(calls: seq<Call>, start: int, key: string, lim: Limit)
    requires lim.rate > 0 && lim.period >= lim.rate && lim.burst >= 1
    requires InTimeOrder(calls, start) && SpacedBy(calls, key, lim.period / lim.rate)
    requires forall i :: 0 <= i < |calls| && calls[i].key == key ==> calls[i].limit == lim
    ensures forall i :: 0 <= i < |calls| && calls[i].key == key ==>
              Answers(map[], calls)[i].Reply? && Answers(map[], calls)[i].allowed == 1
  {
    PositiveInterval(lim);
    CleanupUnobservable(map[], map[], calls, start);
    SpacedAnswers(map[], calls, key, lim);
  }

  // ---- What an answer promises ----

  function Repeated(entries: map<string, int>, c: Call, n: nat): map<string, int> {
    if n == 0 then entries else After(Repeated(entries, c, n - 1), c)
  }

  lemma AfterStores(entries: map<string, int>, c: Call)
    requires c.limit.rate != 0 && Interval(c.limit) > 0 && Allows(Entry(entries, c.key), c.limit, c.now)
    ensures Entry(After(entries, c), c.key)
            == Some(Arrival(Entry(entries, c.key), c.now) + Interval(c.limit))
  {
  }

  /** How far the call lies past the earliest time it could have been allowed. */
  function Slack(entry: Option<int>, c: Call): int
    requires c.limit.rate != 0
  {
    c.now - AllowAt(entry, c.limit, c.now)
  }

  /** The cap at the burst never applies: the announced number is the slack in intervals. */
  lemma RemainingIsSlack(entry: Option<int>, c: Call)
    requires c.limit.rate != 0 && Interval(c.limit) > 0 && Allows(entry, c.limit, c.now)
    ensures Respond(entry, c.limit, c.now).remaining == Slack(entry, c) / Interval(c.limit) >= 0
  {
    var i, b, slack := Interval(c.limit), c.limit.burst, Slack(entry, c);
    assert slack <= i * b - i;
    assert b * i == i * b;
    DivisionBound(b, slack, i);
    DivisionBound(0, slack, i);
  }

  /** Once the arrival time has moved by `n` further intervals, a call at the same instant
      is allowed just while the slack covers one more. */
  lemma AllowedWhileSlack(tat: int, c: Call, n: nat, slack: int)
    requires c.limit.rate != 0 && Interval(c.limit) > 0 && c.now <= tat
    requires slack == c.now - (tat + Interval(c.limit) - Interval(c.limit) * c.limit.burst)
    ensures var moved := tat + Interval(c.limit) + n * Interval(c.limit);
            && moved >= c.now
            && (Allows(Some(moved), c.limit, c.now) <==> n < slack / Interval(c.limit))
  {
    var i := Interval(c.limit);
    assert n * i >= 0;
    assert (n + 1) * i == n * i + i;
    DivisionBound(n + 1, slack, i);
  }

  /** The arrival time after one more call at the same instant, `used` having gone by. */
  lemma OneMoreCall(before: map<string, int>, tat: int, c: Call, used: nat, slack: int, r: int)
    requires c.limit.rate != 0 && Interval(c.limit) > 0 && c.now <= tat
    requires slack == c.now - (tat + Interval(c.limit) - Interval(c.limit) * c.limit.burst)
    requires r == slack / Interval(c.limit)
    requires Entry(before, c.key) == Some(tat + Interval(c.limit) + used * Interval(c.limit))
    ensures var used' := if used < r then used + 1 else used;
            Entry(After(before, c), c.key) == Some(tat + Interval(c.limit) + used' * Interval(c.limit))
  {
    AllowedWhileSlack(tat, c, used, slack);
    if used < r {
      AfterStores(before, c);
      assert (used + 1) * Interval(c.limit) == used * Interval(c.limit) + Interval(c.limit);
    }
  }

  /** How many of `n` calls at the same instant are granted when `r` are left. */
  function Used(n: nat, r: nat): nat { if n <= r then n else r }

  /** From an arrival time one interval past `tat`, `n` more calls at the same instant
      move it by one interval each until the slack is used up. */
  lemma {:induction false} RepeatedArrival(m: map<string, int>, tat: int, c: Call, n: nat, slack: int, r: nat)
    requires c.limit.rate != 0 && Interval(c.limit) > 0 && c.now <= tat
    requires slack == c.now - (tat + Interval(c.limit) - Interval(c.limit) * c.limit.burst)
    requires r == slack / Interval(c.limit)
    requires Entry(m, c.key) == Some(tat + Interval(c.limit))
    ensures Entry(Repeated(m, c, n), c.key) == Some(tat + Interval(c.limit) + Used(n, r) * Interval(c.limit))
    decreases n
  {
    if n == 0 {
      assert Used(0, r) * Interval(c.limit) == 0;
    } else {
      RepeatedArrival(m, tat, c, n - 1, slack, r);
      OneMoreCall(Repeated(m, c, n - 1), tat, c, Used(n - 1, r), slack, r);
      assert Used(n, r) == if Used(n - 1, r) < r then Used(n - 1, r) + 1 else Used(n - 1, r);
    }
  }

  /** `Remaining` is exact: of n further calls at the same instant, the first `remaining`
      are allowed and no other. */
  lemma RemainingIsExact(entries: map<string, int>, c: Call, n: nat)
    requires c.limit.rate != 0 && Interval(c.limit) > 0
    requires Respond(Entry(entries, c.key), c.limit, c.now).allowed == 1
    ensures Allows(Entry(Repeated(After(entries, c), c, n), c.key), c.limit, c.now)
            <==> n < Respond(Entry(entries, c.key), c.limit, c.now).remaining
  {
    var entry := Entry(entries, c.key);
    RemainingIsSlack(entry, c);
    AfterStores(entries, c);
    var r := Slack(entry, c) / Interval(c.limit);
    RepeatedArrival(After(entries, c), Arrival(entry, c.now), c, n, Slack(entry, c), r);
    AllowedWhileSlack(Arrival(entry, c.now), c, Used(n, r), Slack(entry, c));
  }

  /** A denied call changes nothing, and the key is next allowed exactly when
      `RetryAfter` has passed — provided the burst is at least one; with a smaller burst
      no call is ever allowed. */
  lemma RetryAfterIsExact(entries: map<string, int>, c: Call, later: int)
    requires c.limit.rate != 0 && Interval(c.limit) > 0
    requires Respond(Entry(entries, c.key), c.limit, c.now).allowed == 0
    requires c.now <= later
    ensures After(entries, c) == entries
    ensures Allows(Entry(entries, c.key), c.limit, later)
            <==> c.limit.burst >= 1
                 && later >= c.now + Respond(Entry(entries, c.key), c.limit, c.now).retryAfter
  {
    var i, b := Interval(c.limit), c.limit.burst;
    if b >= 1 {
      assert i * b == i + i * (b - 1) && i * (b - 1) >= 0;
    } else {
      assert i * b <= 0;
    }
  }

  lemma {:induction false} RepeatedShift(entries: map<string, int>, c: Call, n: nat)
    ensures Repeated(entries, c, n + 1) == Repeated(After(entries, c), c, n)
    decreases n
  {
    if n == 0 {
      assert Repeated(entries, c, 1) == After(Repeated(entries, c, 0), c);
    } else {
      RepeatedShift(entries, c, n - 1);
    }
  }

  /** The first call on a fresh key leaves all of the burst but one. */
  lemma FreshRemaining(c: Call)
    requires c.limit.rate != 0 && Interval(c.limit) > 0 && c.limit.burst >= 1
    ensures Respond(None, c.limit, c.now).allowed == 1
    ensures Respond(None, c.limit, c.now).remaining == c.limit.burst - 1
  {
    var i, b := Interval(c.limit), c.limit.burst;
    OnTimeAllowed(None, c.limit, c.now);
    RemainingIsSlack(None, c);
    assert Slack(None, c) == i * b - i == (b - 1) * i;
    DivisionBound(b - 1, (b - 1) * i, i);
    DivisionBound(b, (b - 1) * i, i);
    assert b * i == (b - 1) * i + i;
  }

  /** A fresh key allows exactly `burst` calls at one instant. */
  lemma FreshKeyAllowsBurst(c: Call, n: nat)
    requires c.limit.rate != 0 && Interval(c.limit) > 0
    ensures Allows(Entry(Repeated(map[], c, n), c.key), c.limit, c.now) <==> n < c.limit.burst
  {
    if c.limit.burst <= 0 {
      NeverAllowed(Entry(Repeated(map[], c, n), c.key), c);
    } else if n == 0 {
      OnTimeAllowed(None, c.limit, c.now);
    } else {
      FreshRemaining(c);
      RepeatedShift(map[], c, n - 1);
      RemainingIsExact(map[], c, n - 1);
    }
  }

  lemma NeverAllowed(entry: Option<int>, c: Call)
    requires c.limit.rate != 0 && Interval(c.limit) > 0 && c.limit.burst <= 0
    ensures !Allows(entry, c.limit, c.now)
  {
    assert Interval(c.limit) * c.limit.burst <= 0;
  }

  /** After `ResetAfter`, and not before, the key answers like a fresh one; from then on under
      any limit at all. */
  lemma ResetAfterIsExact(entries: map<string, int>, c: Call, lim: Limit, later: int)
    requires c.limit.rate != 0 && Interval(c.limit) > 0 && c.now <= later
    ensures later >= c.now + Respond(Entry(entries, c.key), c.limit, c.now).resetAfter
            ==> Respond(Entry(After(entries, c), c.key), lim, later) == Respond(None, lim, later)
    ensures lim.rate != 0 && Interval(lim) > 0 ==>
              (Respond(Entry(After(entries, c), c.key), lim, later) == Respond(None, lim, later)
               <==> later >= c.now + Respond(Entry(entries, c.key), c.limit, c.now).resetAfter)
  {
    var e := Entry(After(entries, c), c.key);
    ResetAfterIsArrival(entries, c);
    if lim.rate != 0 && Interval(lim) > 0 && e.Some? && e.value > later {
      LateArrivalShows(e.value, lim, later);
    }
  }

  /** `ResetAfter` is the time until the stored arrival time. */
  lemma ResetAfterIsArrival(entries: map<string, int>, c: Call)
    requires c.limit.rate != 0 && Interval(c.limit) > 0
    ensures var e, reset := Entry(After(entries, c), c.key), Respond(Entry(entries, c.key), c.limit, c.now).resetAfter;
            reset == (if e.Some? then Max(e.value - c.now, 0) else 0)
  {
  }

  /** A stored time ahead of the clock shows in the answer. */
  lemma LateArrivalShows(tat: int, lim: Limit, now: int)
    requires lim.rate != 0 && Interval(lim) > 0 && tat > now
    ensures Respond(Some(tat), lim, now) != Respond(None, lim, now)
  {
  }

  // ---- The limiter as code ----

  class LocalLimiter {
    var entries: map<string, int>

    constructor ()
      ensures entries == map[]
    {
      entries := map[];
    }

    method Allow(key: string, limit: Limit, now: int) returns (r: Answer)
      modifies this
      ensures r == Respond(Entry(old(entries), key), limit, now)
      ensures entries == After(old(entries), Call(key, limit, now))
      ensures limit.rate == 0 ==> r.Panic? && entries == old(entries)
      ensures limit.rate > 0 && limit.period >= limit.rate ==> r.Reply?
      ensures r.Reply? ==> (r.allowed == 1 && r.retryAfter == -1) || (r.allowed == 0 && r.retryAfter > 0 && r.remaining == 0)
    {
      if limit.rate > 0 && limit.period >= limit.rate {
        PositiveInterval(limit);
      }
      if limit.rate == 0 {
        return Panic;
      }
      var interval := Quotient(limit.period, limit.rate);
      var burstOffset := interval * limit.burst;
      var tat := now;
      if key in entries && entries[key] >= now {
        tat := entries[key];
      }
      var newTat := tat + interval;
      var allowAt := newTat - burstOffset;
      var diff := now - allowAt;
      if diff < 0 {
        var resetAfter := tat - now;
        if resetAfter < 0 {
          resetAfter := 0;
        }
        return Reply(0, 0, allowAt - now, resetAfter);
      }
      entries := entries[key := newTat];
      if interval == 0 {
        return Panic;
      }
      var remaining := Quotient(diff, interval);
      if remaining > limit.burst {
        remaining := limit.burst;
      }
      var resetAfter := newTat - now;
      if resetAfter < 0 {
        resetAfter := 0;
      }
      Cleanup(now);
      return Reply(1, remaining, -1, resetAfter);
    }

    method Cleanup(now: int)
      modifies this
      ensures entries == Fresh(old(entries), now)
      ensures forall k :: k in entries <==> k in old(entries) && old(entries)[k] >= now
      ensures forall k :: k in entries ==> entries[k] == old(entries)[k]
    {
      var left := entries.Keys;
      while left != {}
        invariant left <= entries.Keys
        invariant forall k :: k in entries ==> k in old(entries) && entries[k] == old(entries)[k]
        invariant forall k :: k in old(entries) && (k !in entries || k !in left) ==>
                    (k in entries <==> old(entries)[k] >= now)
        decreases left
      {
        var key :| key in left;
        if entries[key] < now {
          entries := entries - {key};
        }
        left := left - {key};
      }
    }
  }
}
