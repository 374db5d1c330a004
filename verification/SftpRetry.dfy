/** The SFTP backend's rate-limit streak, its backoff, and its retry loop. */
module SftpRetry {
  import opened Wrappers

  /** A command's result: the rate-limit patterns include those that mean the master connection was dropped. */
  datatype Outcome = Success | RateLimited(dropped: bool) | OtherFailure

  /** Length of the longest rate-limited suffix. */
  function Streak(h: seq<Outcome>): nat {
    if h == [] || !h[|h| - 1].RateLimited? then 0 else Streak(h[..|h| - 1]) + 1
  }

  function Limited(h: seq<Outcome>): nat {
    if h == [] then 0 else Limited(h[..|h| - 1]) + if h[|h| - 1].RateLimited? then 1 else 0
  }

  /** The total is the number of rate-limited results. */
  lemma {:induction false} LimitedCounts(h: seq<Outcome>)
    ensures Limited(h) == |LimitedAt(h)|
    decreases |h|
  {
    if h != [] {
      var (init, k) := (h[..|h| - 1], |h| - 1);
      LimitedCounts(init);
      assert LimitedAt(h) == LimitedAt(init) + if h[k].RateLimited? then {k} else {};
    }
  }

  function LimitedAt(h: seq<Outcome>): set<nat> { set i | 0 <= i < |h| && h[i].RateLimited? }

  /** The last Streak(h) results are rate-limited, and the one before them, if any, is not. */
  lemma {:induction false} StreakIsSuffix(h: seq<Outcome>)
    ensures var n := Streak(h);
            && n <= |h| && (forall i :: |h| - n <= i < |h| ==> h[i].RateLimited?)
            && (n < |h| ==> !h[|h| - n - 1].RateLimited?)
    decreases |h|
  {
    if h != [] && h[|h| - 1].RateLimited? {
      StreakIsSuffix(h[..|h| - 1]);
    }
  }

  /** _RateLimitTracker */
  class Tracker {
    const threshold: nat
    var consecutiveFailures: nat
    var totalFailures: nat
    ghost var history: seq<Outcome>

    /** The counters are those of everything recorded so far. */
    ghost predicate Valid()
      reads this
    {
      consecutiveFailures == Streak(history) && totalFailures == Limited(history)
    }

    constructor (threshold: nat)
      ensures Valid() && history == [] && this.threshold == threshold
    {
      this.threshold, consecutiveFailures, totalFailures, history := threshold, 0, 0, [];
    }

    /** record; true for a rate-limit match. */
    method Record(o: Outcome) returns (matched: bool)
      requires Valid()
      modifies this
      ensures Valid() && history == old(history) + [o] && matched == o.RateLimited?
    {
      history := history + [o];
      assert history[..|history| - 1] == old(history);
      if o.RateLimited? {
        consecutiveFailures, totalFailures := consecutiveFailures + 1, totalFailures + 1;
        return true;
      }
      consecutiveFailures := 0;
      return false;
    }

    predicate ThresholdHit()
      reads this
    {
      consecutiveFailures >= threshold
    }
  }

  /** _BackoffPolicy; its settings are not negative. */
  datatype Policy = Policy(base: real, factor: real, maxSleep: real, maxAttempts: nat, jitter: real) {
    ghost predicate Sensible() {
      base >= 0.0 && factor >= 0.0 && maxSleep >= 0.0 && jitter >= 0.0
    }
  }

  function Power(x: real, n: nat): real {
    if n == 0 then 1.0 else x * Power(x, n - 1)
  }

  /** The longest one sleep can be. */
  function Longest(p: Policy): real { p.maxSleep + p.maxSleep * p.jitter }

  /** The wait before an attempt, jitter apart: it grows by the factor each time, up to the cap. */
  function Wait(p: Policy, attempt: nat): real
    requires attempt > 0
  {
    var raw := p.base * Power(p.factor, attempt - 1);
    if raw < p.maxSleep then raw else p.maxSleep
  }

  /** How far the jitter may move a wait either way. */
  function Spread(p: Policy, attempt: nat): real
    requires attempt > 0
  {
    Wait(p, attempt) * p.jitter
  }

  lemma WaitBounds(p: Policy, attempt: nat)
    requires p.Sensible() && attempt > 0
    ensures 0.0 <= Wait(p, attempt) && 0.0 <= Spread(p, attempt) && Wait(p, attempt) + Spread(p, attempt) <= Longest(p)
  {
    PowerPositive(p.factor, attempt - 1);
    Product(0.0, p.base, Power(p.factor, attempt - 1));
    Product(Wait(p, attempt), p.maxSleep, p.jitter);
  }

  /** The waits back off: the first is the base, each later one the factor times as long, and all are cut at the cap. */
  lemma WaitsBackOff(p: Policy, waits: seq<real>)
    requires waits != [] && waits[0] == p.base
    requires forall i :: 0 < i < |waits| ==> waits[i] == p.factor * waits[i - 1]
    ensures forall i :: 0 <= i < |waits| ==> Wait(p, i + 1) == if waits[i] < p.maxSleep then waits[i] else p.maxSleep
  {
    forall i | 0 <= i < |waits|
      ensures Wait(p, i + 1) == if waits[i] < p.maxSleep then waits[i] else p.maxSleep
    {
      Uncapped(p, waits, i);
    }
  }

  lemma {:induction false} Uncapped(p: Policy, waits: seq<real>, i: nat)
    requires i < |waits| && waits[0] == p.base
    requires forall i :: 0 < i < |waits| ==> waits[i] == p.factor * waits[i - 1]
    ensures waits[i] == p.base * Power(p.factor, i)
  {
    if i > 0 {
      Uncapped(p, waits, i - 1);
      Regroup(p.factor, p.base, Power(p.factor, i - 1));
    }
  }

  lemma Regroup(a: real, b: real, c: real)
    ensures a * (b * c) == b * (a * c)
  {}

  /** With a factor of at least 1 later attempts never wait less. */
  lemma WaitsGrow(p: Policy, attempt: nat)
    requires p.Sensible() && p.factor >= 1.0 && attempt > 0
    ensures Wait(p, attempt) <= Wait(p, attempt + 1)
  {
    var w := Power(p.factor, attempt - 1);
    PowerPositive(p.factor, attempt - 1);
    Product(1.0, p.factor, w);
    Product(w, p.factor * w, p.base);
  }

  /** sleep_for; the jitter is drawn anew each time. */
  method SleepFor(p: Policy, attempt: nat) returns (seconds: real)
    requires p.Sensible()
    ensures 0.0 <= seconds <= Longest(p) && (attempt == 0 ==> seconds == 0.0)
    ensures attempt > 0 ==> Wait(p, attempt) - Spread(p, attempt) <= seconds <= Wait(p, attempt) + Spread(p, attempt)
    ensures attempt > 0 ==> var wait := Wait(p, attempt);
              wait - wait * p.jitter <= seconds <= wait + wait * p.jitter <= p.maxSleep + p.maxSleep * p.jitter
  {
    if attempt == 0 {
      Product(p.maxSleep, p.maxSleep, p.jitter);
      return 0.0;
    }
    hide Wait;
    WaitBounds(p, attempt);
    var capped := Wait(p, attempt);
    var noise: real := Uniform(Spread(p, attempt));
    seconds := if capped + noise > 0.0 then capped + noise else 0.0;
  }

  /** random.uniform(-spread, spread) */
  method Uniform(spread: real) returns (x: real)
    requires spread >= 0.0
    ensures -spread <= x <= spread
  {
    x :| -spread <= x <= spread;
  }

  lemma Product(a: real, b: real, c: real)
    requires 0.0 <= a <= b && c >= 0.0
    ensures 0.0 <= a * c <= b * c
  {}

  lemma {:induction false} PowerPositive(x: real, n: nat)
    requires x >= 0.0
    ensures Power(x, n) >= 0.0
  {
    if n > 0 {
      PowerPositive(x, n - 1);
    }
  }

  datatype Reply = Nothing | Returned(last: Outcome) | RateLimitError

  ghost predicate AllLimited(calls: seq<Outcome>) {
    forall i :: 0 <= i < |calls| ==> calls[i].RateLimited?
  }

  /** Some result means that the master connection was dropped. */
  ghost predicate SawDrop(calls: seq<Outcome>) {
    exists i :: 0 <= i < |calls| && calls[i].RateLimited? && calls[i].dropped
  }

  /** All but perhaps the last of the results are rate-limited. */
  ghost predicate RetriedOnly(calls: seq<Outcome>) {
    calls == [] || AllLimited(calls[..|calls| - 1])
  }

  /** Every attempt was used up: each was rate-limited, and the reconnect, if it worked, gave one call more. */
  ghost predicate Exhausted(p: Policy, calls: seq<Outcome>, reconnected: bool) {
    |calls| == p.maxAttempts + (if reconnected then 1 else 0) && AllLimited(calls)
  }

  /** The most that `n` sleeps can add up to. */
  ghost function Budget(p: Policy, n: nat): real { (n as real) * Longest(p) }

  /** The least that the waits before `attempts` attempts can add up to. */
  function Least(p: Policy, attempts: nat): real {
    if attempts <= 1 then 0.0 else Least(p, attempts - 1) + (Wait(p, attempts - 1) - Spread(p, attempts - 1))
  }

  lemma LeastStep(p: Policy, attempt: nat)
    ensures Least(p, attempt + 1) == if attempt == 0 then 0.0
        else Least(p, attempt) + (Wait(p, attempt) - Spread(p, attempt))
  {}

  /** The first attempt does not wait. */
  function Waits(attempts: nat): nat { if attempts == 0 then 0 else attempts - 1 }

  lemma OneMoreSleep(p: Policy, n: nat)
    requires p.Sensible()
    ensures Budget(p, n + 1) == Budget(p, n) + Longest(p)
  {}

  lemma {:induction false} BudgetGrows(p: Policy, n: nat, m: nat)
    requires p.Sensible() && n <= m
    ensures Budget(p, n) <= Budget(p, m)
    decreases m - n
  {
    hide Budget, Longest;
    if n < m {
      OneMoreSleep(p, n);
      LongestPositive(p);
      BudgetGrows(p, n + 1, m);
    }
  }

  lemma LongestPositive(p: Policy)
    requires p.Sensible()
    ensures Longest(p) >= 0.0
  {
    Product(0.0, p.maxSleep, p.jitter);
  }

  lemma BudgetIs(p: Policy)
    ensures Budget(p, Waits(p.maxAttempts))
         == (if p.maxAttempts == 0 then 0 else p.maxAttempts - 1) as real * (p.maxSleep + p.maxSleep * p.jitter)
  {}

  lemma NoneYet(p: Policy)
    ensures Budget(p, 0) == 0.0 == Least(p, 0) && AllLimited([]) && !SawDrop([])
  {}

  lemma OneMoreCall(calls: seq<Outcome>, o: Outcome)
    requires AllLimited(calls)
    ensures RetriedOnly(calls + [o]) && (o.RateLimited? ==> AllLimited(calls + [o]))
    ensures SawDrop(calls + [o]) <==> SawDrop(calls) || (o.RateLimited? && o.dropped)
  {
    var more := calls + [o];
    assert more[..|calls|] == calls;
    assert more[|calls|] == o && forall i :: 0 <= i < |calls| ==> more[i] == calls[i];
    if SawDrop(calls) {
      var i :| 0 <= i < |calls| && calls[i].RateLimited? && calls[i].dropped;
      assert more[i].dropped;
    }
  }

  lemma AllAreRetried(calls: seq<Outcome>)
    requires AllLimited(calls)
    ensures RetriedOnly(calls)
  {}

  /** invoke: what the server answers is its own affair. */
  method Invoke() returns (o: Outcome) {
    o := *;
  }

  /**
   _run_with_backoff. `calls` are the results of this call's invocations, `reconnects` how often the master was
   reopened, `reconnected` whether that worked, and `slept` the time spent asleep.
  */
  method RunWithBackoff(t: Tracker, p: Policy)
    returns (reply: Reply, slept: real, reconnects: nat, reconnected: bool, ghost calls: seq<Outcome>)
    requires t.Valid() && p.Sensible()
    modifies t
    ensures t.Valid() && t.history == old(t.history) + calls
    ensures |calls| <= p.maxAttempts + 1 && (reconnected ==> reconnects == 1) && RetriedOnly(calls)
    ensures reconnects == if SawDrop(calls) then 1 else 0
    ensures slept <= Budget(p, Waits(p.maxAttempts))
    ensures slept <= (if p.maxAttempts == 0 then 0
        else p.maxAttempts - 1) as real * (p.maxSleep + p.maxSleep * p.jitter)
    ensures slept >= Least(p, if reconnected then |calls| - 1 else |calls|)
    ensures reply.Nothing? <==> calls == []
    ensures reply.Returned? ==> calls != [] && reply.last == calls[|calls| - 1]
    ensures reply.Returned? && reply.last.RateLimited?
        ==> Exhausted(p, calls, reconnected) && Streak(t.history) < t.threshold
    ensures reply.RateLimitError? ==>
        calls != [] && Exhausted(p, calls, reconnected) && Streak(t.history) >= t.threshold
  {
    hide Streak, Limited, Budget, Longest, Least, Wait, Spread, AllLimited, RetriedOnly, SawDrop;
    slept, reconnects, reconnected, calls := 0.0, 0, false, [];
    NoneYet(p);
    BudgetIs(p);
    var last: Option<Outcome> := None;
    var attempt := 0;
    while attempt < p.maxAttempts
      invariant 0 <= attempt <= p.maxAttempts && t.Valid() && t.history == old(t.history) + calls
      invariant |calls| == attempt + (if reconnected then 1 else 0) && (reconnected ==> reconnects == 1)
      invariant AllLimited(calls) && reconnects == if SawDrop(calls) then 1 else 0
      invariant last == if calls == [] then None else Some(calls[|calls| - 1])
      invariant Least(p, attempt) <= slept <= Budget(p, Waits(attempt))
      invariant reconnected ==> attempt > 0
    {
      var s := SleepFor(p, attempt);
      slept := slept + s;
      if attempt > 0 {
        OneMoreSleep(p, attempt - 1);
      }
      BudgetGrows(p, attempt, Waits(p.maxAttempts));
      LeastStep(p, attempt);
      var o := Invoke();
      var matched := t.Record(o);
      OneMoreCall(calls, o);
      calls, last := calls + [o], Some(o);
      if !matched {
        return Returned(o), slept, reconnects, reconnected, calls;
      }
      if reconnects == 0 && o.dropped {
        reconnects := 1;
        var reopened: bool := *;
        if reopened {
          reconnected := true;
          o := Invoke();
          matched := t.Record(o);
          OneMoreCall(calls, o);
          calls, last := calls + [o], Some(o);
          if !matched {
            return Returned(o), slept, reconnects, reconnected, calls;
          }
        }
      }
      attempt := attempt + 1;
    }
    AllAreRetried(calls);
    if last.Some? && t.ThresholdHit() {
      return RateLimitError, slept, reconnects, reconnected, calls;
    }
    reply := if last.Some? then Returned(last.value) else Nothing;
  }
}
