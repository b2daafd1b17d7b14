/** The generic poller: call `run()` once per interval tick until the
    predicate accepts a result, an attempt fails, or the deadline passes.

    Time is virtual. Tick t (t = 1, 2, ...) fires at t * interval, so the
    first attempt comes one interval after the start. The deadline timer
    fires at the configured timeout. A tick falling exactly on the deadline
    is taken to lose to the deadline. Ticks are serialized: every attempt
    settles before the next tick. Each attempt consumes the next scripted
    outcome of `run()`; when the script runs out before the poll settles,
    the poll is Pending. */
module Poll {
  import opened Js

  const DefaultTimeout: nat := 10000
  const DefaultInterval: nat := 100

  /** The largest delay a Node.js timer honours; it replaces any other
      delay, Infinity included, by 1 ms. */
  const MaxTimerDelay: nat := 2147483647

  /** The `opts` argument of `poll`: both fields may be left out. */
  datatype PollOptions = PollOptions(timeout: Option<nat>, interval: Option<nat>)

  /** The options after the defaults have been filled in. */
  datatype Config = Config(timeout: nat, interval: nat)

  /** `Object.assign({timeout: 10000, interval: 100}, opts || {})`. */
  function Configure(opts: Option<PollOptions>): (c: Config)
    ensures opts.None? ==> c == Config(DefaultTimeout, DefaultInterval)
    ensures opts.Some? ==> c.timeout == opts.value.timeout.GetOr(DefaultTimeout)
    ensures opts.Some? ==> c.interval == opts.value.interval.GetOr(DefaultInterval)
  {
    var o := opts.GetOr(PollOptions(None, None));
    Config(o.timeout.GetOr(DefaultTimeout), o.interval.GetOr(DefaultInterval))
  }

  /** The delay a Node.js timer actually waits for a requested delay. */
  function TimerDelay(ms: nat): (d: nat)
    ensures 1 <= d <= MaxTimerDelay
    ensures 1 <= ms <= MaxTimerDelay ==> d == ms
    ensures ms == 0 || ms > MaxTimerDelay ==> d == 1
  {
    if 1 <= ms <= MaxTimerDelay then ms else 1
  }

  /** When the deadline timer fires, if ever. */
  datatype Deadline = Never | At(ms: nat)

  /** The deadline the code means by `opts.timeout || Infinity`: a timeout
      of 0 means there is none. Any other timeout is armed as written, so a
      timeout above MaxTimerDelay fires after 1 ms. */
  function DeadlineOf(timeout: nat): (d: Deadline)
    ensures d == Never <==> timeout == 0
    ensures 1 <= timeout <= MaxTimerDelay ==> d == At(timeout)
    ensures timeout > MaxTimerDelay ==> d == At(1)
    ensures d.At? ==> d.ms >= 1
  {
    if timeout == 0 then Never else At(TimerDelay(timeout))
  }

  /** The deadline `setTimeout(..., opts.timeout || Infinity)` gets from
      Node.js: Infinity, and any timeout above MaxTimerDelay, become 1 ms. */
  function DeadlineAsWritten(timeout: nat): (d: Deadline)
    ensures d.At?
    ensures timeout == 0 ==> d == At(1)
    ensures timeout > 0 ==> d == At(TimerDelay(timeout))
  {
    if timeout == 0 then At(1) else At(TimerDelay(timeout))
  }

  /** Everything about time a poll needs: the deadline, the tick interval,
      and the configured timeout that the timeout message names. */
  datatype Schedule = Schedule(deadline: Deadline, interval: nat, timeout: nat)

  function ScheduleOf(c: Config): (s: Schedule)
    ensures s.deadline == DeadlineOf(c.timeout)
    ensures s.interval == TimerDelay(c.interval) && s.interval >= 1
    ensures s.timeout == c.timeout
  {
    Schedule(DeadlineOf(c.timeout), TimerDelay(c.interval), c.timeout)
  }

  /** The deadline timer has fired by time `now`. */
  predicate Expired(d: Deadline, now: nat) {
    d.At? && d.ms <= now
  }

  /** Tick `t` fires before the deadline. */
  predicate Due(s: Schedule, t: nat) {
    !Expired(s.deadline, t * s.interval)
  }

  /** The error the deadline timer rejects with. */
  function TimeoutError(timeout: nat): (e: Error)
    ensures e.code == None
    ensures e.message == "Poll timed out after " + Decimal(timeout) + "ms"
  {
    Raise("Poll timed out after " + Decimal(timeout) + "ms")
  }

  /** `predicate || (predicate = val => !!val)`: the caller's predicate (`condition`), or
      else truthiness of the result. `truthy` is JavaScript's `!!` on the
      result type. */
  function EffectivePredicate<T>(condition: Option<T -> Settled<bool>>, truthy: T -> bool): (p: T -> Settled<bool>)
    ensures condition.Some? ==> p == condition.value
  {
    if condition.Some? then condition.value else v => Fulfilled(truthy(v))
  }

  /** Without a predicate, a result completes the poll exactly when it is
      truthy, and the default predicate never throws. */
  lemma DefaultPredicateIsTruthiness<T>(truthy: T -> bool, v: T)
    ensures EffectivePredicate(None, truthy)(v) == Fulfilled(truthy(v))
    ensures Stops(Fulfilled(v), EffectivePredicate(None, truthy)) <==> truthy(v)
  {
  }

  /** Truthiness of the objects the AWS SDK resolves with: always true. */
  function ObjectTruthiness<T>(v: T): bool {
    true
  }

  /** One attempt ends the poll: `run()` rejected, the predicate threw, or
      the predicate accepted the result. */
  predicate Stops<T>(a: Settled<T>, pred: T -> Settled<bool>)
    ensures Stops(a, pred) <==>
      a.Rejected? || pred(a.value).Rejected? || pred(a.value) == Fulfilled(true)
  {
    a.Rejected? || match pred(a.value) { case Rejected(_) => true case Fulfilled(isComplete) => isComplete }
  }

  /** What a stopping attempt makes of the poll. */
  function Verdict<T>(a: Settled<T>, pred: T -> Settled<bool>): (o: Outcome<T>)
    requires Stops(a, pred)
    ensures a.Rejected? ==> o == Thrown(a.error)
    ensures a.Fulfilled? && pred(a.value).Rejected? ==> o == Thrown(pred(a.value).error)
    ensures a.Fulfilled? && pred(a.value) == Fulfilled(true) ==> o == Resolved(a.value)
    ensures o.Resolved? ==> a == Fulfilled(o.value) && pred(o.value) == Fulfilled(true)
    ensures !o.Pending?
  {
    match a
    case Rejected(e) => Thrown(e)
    case Fulfilled(v) =>
      match pred(v)
      case Rejected(e) => Thrown(e)
      case Fulfilled(_) => Resolved(v)
  }

  /** How a poll ends and how many times it called `run()`. */
  datatype Polled<T> = Polled(result: Outcome<T>, attempts: nat)

  /** The poll from the moment `k` attempts have been made without stopping
      it; the next tick is tick k + 1. */
  function PollFrom<T>(results: seq<Settled<T>>, pred: T -> Settled<bool>, s: Schedule, k: nat): (p: Polled<T>)
    requires k <= |results|
    ensures k <= p.attempts <= |results|
    decreases |results| - k
  {
    if !Due(s, k + 1) then Polled(Thrown(TimeoutError(s.timeout)), k)
    else if k == |results| then Polled(Pending, k)
    else if Stops(results[k], pred) then Polled(Verdict(results[k], pred), k + 1)
    else PollFrom(results, pred, s, k + 1)
  }

  /** `poll(run, predicate, opts)`, where `results` are the outcomes of
      successive `run()` calls. */
  function PollSpec<T>(results: seq<Settled<T>>, condition: Option<T -> Settled<bool>>,
                       truthy: T -> bool, opts: Option<PollOptions>): (p: Polled<T>)
    ensures p.attempts <= |results|
    ensures p.result.Resolved? ==>
      && 1 <= p.attempts
      && results[p.attempts - 1] == Fulfilled(p.result.value)
      && EffectivePredicate(condition, truthy)(p.result.value) == Fulfilled(true)
  {
    PollResolvesWithFirstAccepted(results, EffectivePredicate(condition, truthy), ScheduleOf(Configure(opts)));
    PollFrom(results, EffectivePredicate(condition, truthy), ScheduleOf(Configure(opts)), 0)
  }

  /** The poll as a loop: an index into the outcomes of `run()` and the
      clock of the next interval tick. Leaving the loop is `clearClock()`:
      no attempt follows. */
  method Poll<T>(results: seq<Settled<T>>, condition: Option<T -> Settled<bool>>,
                 truthy: T -> bool, opts: Option<PollOptions>) returns (p: Polled<T>)
    ensures p == PollSpec(results, condition, truthy, opts)
  {
    var pred := EffectivePredicate(condition, truthy);
    var config := Configure(opts);
    var s := ScheduleOf(config);
    var k := 0;
    var clock := s.interval;
    while !Expired(s.deadline, clock) && k < |results|
      invariant 0 <= k <= |results|
      invariant clock == (k + 1) * s.interval
      invariant PollFrom(results, pred, s, 0) == PollFrom(results, pred, s, k)
      decreases |results| - k
    {
      var attempt := results[k];
      if attempt.Rejected? {
        p := Polled(Thrown(attempt.error), k + 1);
        return;
      }
      var isComplete := pred(attempt.value);
      if isComplete.Rejected? {
        p := Polled(Thrown(isComplete.error), k + 1);
        return;
      }
      if isComplete.value {
        p := Polled(Resolved(attempt.value), k + 1);
        return;
      }
      k := k + 1;
      clock := clock + s.interval;
    }
    if Expired(s.deadline, clock) {
      p := Polled(Thrown(TimeoutError(config.timeout)), k);
    } else {
      p := Polled(Pending, k);
    }
  }

  // ---------------------------------------------------------------------
  // How a poll ends, from attempt `from` on. Between them the three cases
  // describe every poll (PollFromCases), and each is reached exactly when
  // its conditions hold (PollStopsAtFirstStop, PollTimesOut, PollRunsOut).

  /** Attempt p.attempts is the first that stops the poll, every tick up to
      it came before the deadline, and the poll ends as that attempt says. */
  ghost predicate StoppedAt<T>(results: seq<Settled<T>>, pred: T -> Settled<bool>, s: Schedule, from: nat, p: Polled<T>) {
    && from < p.attempts <= |results|
    && (forall j :: from <= j < p.attempts - 1 ==> !Stops(results[j], pred))
    && (forall t :: from < t <= p.attempts ==> Due(s, t))
    && Stops(results[p.attempts - 1], pred)
    && p.result == Verdict(results[p.attempts - 1], pred)
  }

  /** No attempt stopped the poll, every attempt made came before the
      deadline, the next tick would not have, and the poll timed out. */
  ghost predicate TimedOut<T>(results: seq<Settled<T>>, pred: T -> Settled<bool>, s: Schedule, from: nat, p: Polled<T>) {
    && from <= p.attempts <= |results|
    && (forall j :: from <= j < p.attempts ==> !Stops(results[j], pred))
    && (forall t :: from < t <= p.attempts ==> Due(s, t))
    && !Due(s, p.attempts + 1)
    && p.result == Thrown(TimeoutError(s.timeout))
  }

  /** Every scripted outcome was used without stopping the poll and the
      deadline had not passed at the next tick: the poll is still pending. */
  ghost predicate RanOut<T>(results: seq<Settled<T>>, pred: T -> Settled<bool>, s: Schedule, from: nat, p: Polled<T>) {
    && from <= p.attempts == |results|
    && (forall j :: from <= j < |results| ==> !Stops(results[j], pred))
    && (forall t :: from < t <= |results| + 1 ==> Due(s, t))
    && p.result == Pending
  }

  lemma {:induction false} PollFromCases<T>(results: seq<Settled<T>>, pred: T -> Settled<bool>, s: Schedule, k: nat)
    requires k <= |results|
    ensures var p := PollFrom(results, pred, s, k);
      StoppedAt(results, pred, s, k, p) || TimedOut(results, pred, s, k, p) || RanOut(results, pred, s, k, p)
    decreases |results| - k
  {
    if Due(s, k + 1) && k < |results| && !Stops(results[k], pred) {
      PollFromCases(results, pred, s, k + 1);
    }
  }

  /** Every poll ends in exactly one of the three ways, counted from the
      first attempt. */
  lemma PollCases<T>(results: seq<Settled<T>>, pred: T -> Settled<bool>, s: Schedule)
    ensures var p := PollFrom(results, pred, s, 0);
      StoppedAt(results, pred, s, 0, p) || TimedOut(results, pred, s, 0, p) || RanOut(results, pred, s, 0, p)
    ensures var p := PollFrom(results, pred, s, 0);
      && !(StoppedAt(results, pred, s, 0, p) && TimedOut(results, pred, s, 0, p))
      && !(StoppedAt(results, pred, s, 0, p) && RanOut(results, pred, s, 0, p))
      && !(TimedOut(results, pred, s, 0, p) && RanOut(results, pred, s, 0, p))
  {
    PollFromCases(results, pred, s, 0);
  }

  lemma {:induction false} PollStopsAtFirstStopFrom<T>(results: seq<Settled<T>>, pred: T -> Settled<bool>, s: Schedule, k: nat, i: nat)
    requires k <= i < |results|
    requires forall j :: k <= j < i ==> !Stops(results[j], pred)
    requires Stops(results[i], pred)
    requires forall t :: k < t <= i + 1 ==> Due(s, t)
    ensures PollFrom(results, pred, s, k) == Polled(Verdict(results[i], pred), i + 1)
    decreases i - k
  {
    assert Due(s, k + 1);
    if k < i {
      assert !Stops(results[k], pred);
      PollStopsAtFirstStopFrom(results, pred, s, k + 1, i);
    }
  }

  /** The poll ends with the first attempt that stops it, provided its tick
      comes before the deadline, and makes no attempt after it: it resolves
      with the first accepted result and rejects with the first error. */
  lemma PollStopsAtFirstStop<T>(results: seq<Settled<T>>, pred: T -> Settled<bool>, s: Schedule, i: nat)
    requires i < |results|
    requires forall j :: 0 <= j < i ==> !Stops(results[j], pred)
    requires Stops(results[i], pred)
    requires forall t :: 0 < t <= i + 1 ==> Due(s, t)
    ensures PollFrom(results, pred, s, 0) == Polled(Verdict(results[i], pred), i + 1)
  {
    PollStopsAtFirstStopFrom(results, pred, s, 0, i);
  }

  lemma {:induction false} PollTimesOutFrom<T>(results: seq<Settled<T>>, pred: T -> Settled<bool>, s: Schedule, k: nat, n: nat)
    requires k <= n <= |results|
    requires forall j :: k <= j < n ==> !Stops(results[j], pred)
    requires forall t :: k < t <= n ==> Due(s, t)
    requires !Due(s, n + 1)
    ensures PollFrom(results, pred, s, k) == Polled(Thrown(TimeoutError(s.timeout)), n)
    decreases n - k
  {
    if k < n {
      assert Due(s, k + 1) && !Stops(results[k], pred);
      PollTimesOutFrom(results, pred, s, k + 1, n);
    }
  }

  /** When the first n attempts do not stop the poll, all come before the
      deadline and tick n + 1 does not, the poll rejects with the timeout
      error after exactly n attempts. */
  lemma PollTimesOut<T>(results: seq<Settled<T>>, pred: T -> Settled<bool>, s: Schedule, n: nat)
    requires n <= |results|
    requires forall j :: 0 <= j < n ==> !Stops(results[j], pred)
    requires forall t :: 0 < t <= n ==> Due(s, t)
    requires !Due(s, n + 1)
    ensures PollFrom(results, pred, s, 0) == Polled(Thrown(TimeoutError(s.timeout)), n)
  {
    PollTimesOutFrom(results, pred, s, 0, n);
  }

  lemma {:induction false} PollRunsOutFrom<T>(results: seq<Settled<T>>, pred: T -> Settled<bool>, s: Schedule, k: nat)
    requires k <= |results|
    requires forall j :: k <= j < |results| ==> !Stops(results[j], pred)
    requires forall t :: k < t <= |results| + 1 ==> Due(s, t)
    ensures PollFrom(results, pred, s, k) == Polled(Pending, |results|)
    decreases |results| - k
  {
    assert Due(s, k + 1);
    if k < |results| {
      assert !Stops(results[k], pred);
      PollRunsOutFrom(results, pred, s, k + 1);
    }
  }

  /** When no scripted outcome stops the poll and the deadline is still
      ahead at the tick after the last one, the poll stays pending. */
  lemma PollRunsOut<T>(results: seq<Settled<T>>, pred: T -> Settled<bool>, s: Schedule)
    requires forall j :: 0 <= j < |results| ==> !Stops(results[j], pred)
    requires forall t :: 0 < t <= |results| + 1 ==> Due(s, t)
    ensures PollFrom(results, pred, s, 0) == Polled(Pending, |results|)
  {
    PollRunsOutFrom(results, pred, s, 0);
  }

  /** A resolved poll resolves with the result of its last attempt, which
      the predicate accepted; every earlier attempt fulfilled with a result
      the predicate turned down, and every attempt came before the deadline. */
  lemma PollResolvesWithFirstAccepted<T>(results: seq<Settled<T>>, pred: T -> Settled<bool>, s: Schedule)
    ensures var p := PollFrom(results, pred, s, 0);
      p.result.Resolved? ==>
        && 1 <= p.attempts <= |results|
        && results[p.attempts - 1] == Fulfilled(p.result.value)
        && pred(p.result.value) == Fulfilled(true)
        && (forall j :: 0 <= j < p.attempts - 1 ==> results[j].Fulfilled? && pred(results[j].value) == Fulfilled(false))
        && (forall t :: 0 < t <= p.attempts ==> Due(s, t))
  {
    PollCases(results, pred, s);
  }

  /** A rejected poll rejects either with the error of its last attempt (and
      no attempt follows it) or with the timeout error once the deadline
      passed. */
  lemma PollRejectsWithAttemptErrorOrTimeout<T>(results: seq<Settled<T>>, pred: T -> Settled<bool>, s: Schedule)
    ensures var p := PollFrom(results, pred, s, 0);
      p.result.Thrown? ==>
        || (&& 1 <= p.attempts <= |results|
            && (results[p.attempts - 1].Rejected? ==> p.result.error == results[p.attempts - 1].error)
            && (results[p.attempts - 1].Fulfilled? ==> pred(results[p.attempts - 1].value) == Rejected(p.result.error)))
        || (p.result.error == TimeoutError(s.timeout) && !Due(s, p.attempts + 1))
  {
    PollCases(results, pred, s);
  }

  /** Without a deadline a poll never times out: it resolves, rejects with
      an attempt's error, or uses up every scripted outcome. */
  lemma NoDeadlineNeverTimesOut<T>(results: seq<Settled<T>>, pred: T -> Settled<bool>, s: Schedule)
    requires s.deadline == Never
    ensures var p := PollFrom(results, pred, s, 0);
      StoppedAt(results, pred, s, 0, p) || RanOut(results, pred, s, 0, p)
  {
    PollCases(results, pred, s);
  }

  /** With a timeout of 0 there is no deadline: the configured poll never
      rejects with the timeout error unless an attempt itself did. */
  lemma ZeroTimeoutNeverExpires<T>(results: seq<Settled<T>>, condition: Option<T -> Settled<bool>>,
                                   truthy: T -> bool, interval: Option<nat>)
    ensures var p := PollSpec(results, condition, truthy, Some(PollOptions(Some(0), interval)));
      p.result.Pending? ==> p.attempts == |results|
    ensures var pred := EffectivePredicate(condition, truthy);
      var p := PollSpec(results, condition, truthy, Some(PollOptions(Some(0), interval)));
      p.result.Thrown? ==> 1 <= p.attempts && Stops(results[p.attempts - 1], pred)
                           && p.result == Verdict(results[p.attempts - 1], pred)
  {
    var pred := EffectivePredicate(condition, truthy);
    var s := ScheduleOf(Configure(Some(PollOptions(Some(0), interval))));
    NoDeadlineNeverTimesOut(results, pred, s);
  }

  /** With a deadline, a poll that times out has made exactly
      (deadline - 1) / interval attempts: one per interval tick before it. */
  lemma TimeoutAttemptCount<T>(results: seq<Settled<T>>, pred: T -> Settled<bool>, s: Schedule)
    requires s.deadline.At? && s.deadline.ms >= 1 && s.interval >= 1
    ensures var p := PollFrom(results, pred, s, 0);
      TimedOut(results, pred, s, 0, p) ==> p.attempts == (s.deadline.ms - 1) / s.interval
  {
    var p := PollFrom(results, pred, s, 0);
    if TimedOut(results, pred, s, 0, p) {
      var a, d, i := p.attempts, s.deadline.ms, s.interval;
      assert d <= (a + 1) * i;
      if a > 0 {
        assert Due(s, a);
      }
      assert a * i < d;
      DivisionBetweenMultiples(a, d - 1, i);
    }
  }

  /** q * i <= x < (q + 1) * i determines q as x / i. */
  lemma DivisionBetweenMultiples(q: nat, x: nat, i: nat)
    requires i >= 1 && q * i <= x < (q + 1) * i
    ensures x / i == q
  {
    var r := x / i;
    MultiplyMonotone(r + 1, q, i);
    MultiplyMonotone(q + 1, r, i);
  }

  lemma MultiplyMonotone(a: nat, b: nat, i: nat)
    ensures a <= b ==> a * i <= b * i
  {
    if a <= b {
      assert b * i == a * i + (b - a) * i;
    }
  }

  // ---------------------------------------------------------------------
  // The timeout of 0 as written (see DeadlineAsWritten).

  /** As written, `{timeout: 0}` does not disable the timeout: the deadline
      timer fires after 1 ms, before the first tick of the default interval
      or of any configured one of 2..MaxTimerDelay ms, and the poll rejects
      with "Poll timed out after 0ms" without one attempt. */
  lemma ZeroTimeoutExpiresAtOnceAsWritten<T>(results: seq<Settled<T>>, pred: T -> Settled<bool>, interval: Option<nat>)
    requires interval.None? || 2 <= interval.value <= MaxTimerDelay
    ensures var c := Configure(Some(PollOptions(Some(0), interval)));
      PollFrom(results, pred, Schedule(DeadlineAsWritten(c.timeout), TimerDelay(c.interval), c.timeout), 0)
      == Polled(Thrown(TimeoutError(0)), 0)
    ensures TimeoutError(0).message == "Poll timed out after 0ms"
  {
    assert Decimal(0) == "0";
  }

  /** The deadline as written and the intended one differ only for a
      timeout of 0. */
  lemma DeadlinesAgreeAboveZero(timeout: nat)
    ensures DeadlineAsWritten(timeout) == DeadlineOf(timeout) <==> timeout > 0
  {
  }

  /** A timeout above MaxTimerDelay fires after 1 ms: with an interval
      longer than that, the poll rejects with the timeout error, naming the
      configured timeout, before `run()` is called once. */
  lemma OverlongTimeoutExpiresAtOnce<T>(results: seq<Settled<T>>, condition: Option<T -> Settled<bool>>,
                                        truthy: T -> bool, timeout: nat, interval: Option<nat>)
    requires timeout > MaxTimerDelay
    requires interval.None? || 2 <= interval.value <= MaxTimerDelay
    ensures PollSpec(results, condition, truthy, Some(PollOptions(Some(timeout), interval)))
            == Polled(Thrown(TimeoutError(timeout)), 0)
  {
    var s := ScheduleOf(Configure(Some(PollOptions(Some(timeout), interval))));
    assert s.deadline == At(1) && s.interval >= 2;
  }
}
