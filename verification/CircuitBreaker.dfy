/**
 * The circuit breaker (src/core/circuit-breaker.ts): calls to a provider start and finish in any
 * order, and the clock never runs backwards.
 */
module CircuitBreaker {

  datatype Circuit = Closed | Open | HalfOpen

  datatype Breaker = Breaker(state: Circuit, failures: nat, openedAt: int)

  datatype Options = Options(failureThreshold: int, resetTimeoutMs: int)

  const INITIAL := Breaker(Closed, 0, 0)

  // ---- the steps of a call

  predicate CanProbe(o: Options, b: Breaker, now: int) {
    b.state == Open && now - b.openedAt >= o.resetTimeoutMs
  }

  /** Whether a call that starts now runs at all. */
  predicate Admits(o: Options, b: Breaker, now: int) {
    b.state != Open || CanProbe(o, b, now)
  }

  function AfterStart(o: Options, b: Breaker, now: int): Breaker {
    if CanProbe(o, b, now) then b.(state := HalfOpen) else b
  }

  function AfterSuccess(b: Breaker): Breaker {
    b.(failures := 0, state := Closed)
  }

  function AfterFailure(o: Options, b: Breaker, now: int): Breaker {
    if b.failures + 1 >= o.failureThreshold || b.state == HalfOpen
    then Breaker(Open, b.failures + 1, now)
    else b.(failures := b.failures + 1)
  }

  /** The state shown to callers. */
  function Shown(o: Options, b: Breaker, now: int): Circuit {
    if CanProbe(o, b, now) then HalfOpen else b.state
  }

  class CircuitBreaker {
    const options: Options
    var state: Circuit
    var failures: nat
    var openedAt: int
    ghost var running: nat

    ghost function Value(): Breaker
      reads this
    {
      Breaker(state, failures, openedAt)
    }

    constructor (options: Options)
      ensures this.options == options && Value() == INITIAL && running == 0
    {
      this.options := options;
      state, failures, openedAt, running := Closed, 0, 0, 0;
    }

    /** The part of a call before the provider is asked. The clock is read twice. */
    method Start(first: int, second: int) returns (admitted: bool)
      requires first <= second
      modifies this`state, this`running
      ensures admitted <==> Admits(options, old(Value()), first)
      ensures !admitted ==> Value() == old(Value()) && running == old(running)
      ensures admitted ==> Value() == AfterStart(options, old(Value()), second) && running == old(running) + 1
    {
      if state == Open && !(first - openedAt >= options.resetTimeoutMs) {
        return false;
      }
      if state == Open && second - openedAt >= options.resetTimeoutMs {
        state := HalfOpen;
      }
      running := running + 1;
      admitted := true;
    }

    method Succeed()
      requires running > 0
      modifies this`state, this`failures, this`running
      ensures Value() == AfterSuccess(old(Value())) && running == old(running) - 1
    {
      failures, state, running := 0, Closed, running - 1;
    }

    method Fail(now: int)
      requires running > 0
      modifies this
      ensures Value() == AfterFailure(options, old(Value()), now) && running == old(running) - 1
    {
      failures := failures + 1;
      if failures >= options.failureThreshold || state == HalfOpen {
        state, openedAt := Open, now;
      }
      running := running - 1;
    }
  }

  // ---- any interleaving of calls

  datatype Step = Starts(first: int, second: int) | Succeeds | Fails(now: int)

  function Next(o: Options, b: Breaker, step: Step): Breaker {
    match step
    case Starts(first, second) => if Admits(o, b, first) then AfterStart(o, b, second) else b
    case Succeeds => AfterSuccess(b)
    case Fails(now) => AfterFailure(o, b, now)
  }

  function After(o: Options, b: Breaker, steps: seq<Step>): Breaker {
    if steps == [] then b else Next(o, After(o, b, steps[..|steps| - 1]), steps[|steps| - 1])
  }

  ghost predicate ClosedIffBelow(o: Options, b: Breaker) {
    b.state == Closed <==> b.failures < o.failureThreshold
  }

  /**
   * However calls overlap, the circuit is closed exactly while failures are below the threshold. This
   * is so from the beginning, and so at all, exactly when the threshold is at least 1.
   */
  lemma ClosedExactlyBelowThreshold(o: Options)
    ensures o.failureThreshold >= 1 <==> forall steps :: ClosedIffBelow(o, After(o, INITIAL, steps))
  {
    if o.failureThreshold >= 1 {
      forall steps
        ensures ClosedIffBelow(o, After(o, INITIAL, steps))
      {
        StaysClosedIffBelow(o, INITIAL, steps);
      }
    } else {
      assert After(o, INITIAL, []) == INITIAL;
      assert !ClosedIffBelow(o, After(o, INITIAL, []));
    }
  }

  lemma {:induction false} StaysClosedIffBelow(o: Options, b: Breaker, steps: seq<Step>)
    requires o.failureThreshold >= 1 && ClosedIffBelow(o, b)
    ensures ClosedIffBelow(o, After(o, b, steps))
    decreases |steps|
  {
    if steps != [] {
      StaysClosedIffBelow(o, b, steps[..|steps| - 1]);
    }
  }

  /** So a failure while half open would reopen the circuit by its count alone. */
  lemma HalfOpenIsBeyondThreshold(o: Options, steps: seq<Step>)
    requires o.failureThreshold >= 1
    ensures After(o, INITIAL, steps).state == HalfOpen ==>
      After(o, INITIAL, steps).failures + 1 >= o.failureThreshold
  {
    StaysClosedIffBelow(o, INITIAL, steps);
  }

  /**
   * In every run the state shown tells what comes of a call that starts at that moment: closed while failures
   * are below the threshold, half open when the call is admitted as a probe, open when it is refused.
   */
  lemma ShownPredictsAdmission(o: Options, steps: seq<Step>, now: int)
    requires o.failureThreshold >= 1
    ensures
      var b := After(o, INITIAL, steps);
      && (Shown(o, b, now) == Closed <==> b.failures < o.failureThreshold)
      && (Shown(o, b, now) == HalfOpen <==> Admits(o, b, now) && AfterStart(o, b, now).state == HalfOpen)
      && (Shown(o, b, now) == Open <==> !Admits(o, b, now))
  {
    StaysClosedIffBelow(o, INITIAL, steps);
  }

  /** How many of the calls are admitted. */
  function Admitted(o: Options, b: Breaker, steps: seq<Step>): nat {
    if steps == [] then 0
    else
      var front, last := steps[..|steps| - 1], steps[|steps| - 1];
      Admitted(o, b, front) + if last.Starts? && Admits(o, After(o, b, front), last.first) then 1 else 0
  }

  ghost predicate AllStarts(steps: seq<Step>) {
    forall i :: 0 <= i < |steps| ==> steps[i].Starts?
  }

  /**
   * Once half open, every call is admitted until one of them finishes: there is one probe exactly
   * when at most one call starts.
   */
  lemma {:induction false} HalfOpenAdmitsAll(o: Options, b: Breaker, steps: seq<Step>, now: int)
    requires b.state == HalfOpen && AllStarts(steps)
    ensures After(o, b, steps) == b && Admits(o, After(o, b, steps), now)
    ensures Admitted(o, b, steps) == |steps|
    ensures Admitted(o, b, steps) <= 1 <==> |steps| <= 1
    decreases |steps|
  {
    if steps != [] {
      HalfOpenAdmitsAll(o, b, steps[..|steps| - 1], now);
    }
  }

  /** Clock readings do not run backwards. */
  ghost predicate Forward(steps: seq<Step>) {
    && AllStarts(steps)
    && (forall i :: 0 <= i < |steps| ==> steps[i].first <= steps[i].second)
    && (forall i, j :: 0 <= i < j < |steps| ==> steps[i].second <= steps[j].first)
  }

  /** How many of the calls start when the timeout has passed. */
  function TimedOut(o: Options, b: Breaker, steps: seq<Step>): nat
    requires AllStarts(steps)
  {
    if steps == [] then 0
    else
      var front, last := steps[..|steps| - 1], steps[|steps| - 1];
      TimedOut(o, b, front) + if last.first - b.openedAt >= o.resetTimeoutMs then 1 else 0
  }

  lemma {:induction false} FirstTimedOut(o: Options, b: Breaker, steps: seq<Step>, now: int)
    requires Forward(steps) && forall i :: 0 <= i < |steps| ==> steps[i].second <= now
    ensures TimedOut(o, b, steps) > 0 ==> now - b.openedAt >= o.resetTimeoutMs
    decreases |steps|
  {
    if steps != [] {
      FirstTimedOut(o, b, steps[..|steps| - 1], now);
    }
  }

  /**
   * While the circuit is open and no call has finished, the calls admitted are exactly those that start
   * after the timeout, however many they are.
   */
  lemma {:induction false} OpenAdmitsTimedOut(o: Options, b: Breaker, steps: seq<Step>)
    requires b.state == Open && Forward(steps)
    ensures Admitted(o, b, steps) == TimedOut(o, b, steps)
    ensures After(o, b, steps) == if TimedOut(o, b, steps) == 0 then b else b.(state := HalfOpen)
    decreases |steps|
  {
    if steps != [] {
      var front, last := steps[..|steps| - 1], steps[|steps| - 1];
      OpenAdmitsTimedOut(o, b, front);
      FirstTimedOut(o, b, front, last.first);
    }
  }

  // ---- one failing call after another

  // A call that starts at first, with a second clock reading, and fails at done if it runs.
  datatype Attempt = Attempt(first: int, second: int, done: int)

  ghost predicate OneByOne(attempts: seq<Attempt>) {
    && (forall i :: 0 <= i < |attempts| ==> attempts[i].first <= attempts[i].second <= attempts[i].done)
    && (forall i :: 0 <= i < |attempts| - 1 ==> attempts[i].done <= attempts[i + 1].first)
  }

  function AfterAttempt(o: Options, b: Breaker, a: Attempt): Breaker {
    if Admits(o, b, a.first) then AfterFailure(o, AfterStart(o, b, a.second), a.done) else b
  }

  function AfterAttempts(o: Options, b: Breaker, attempts: seq<Attempt>): Breaker {
    if attempts == [] then b
    else AfterAttempt(o, AfterAttempts(o, b, attempts[..|attempts| - 1]), attempts[|attempts| - 1])
  }

  /** How many of the attempts reach the provider. */
  function Ran(o: Options, b: Breaker, attempts: seq<Attempt>): nat {
    if attempts == [] then 0
    else
      var front := attempts[..|attempts| - 1];
      Ran(o, b, front) + if Admits(o, AfterAttempts(o, b, front), attempts[|attempts| - 1].first) then 1 else 0
  }

  /** After n calls that ran and failed, the circuit was last opened at least n timeouts later. */
  lemma {:induction false} OpenedLater(o: Options, b: Breaker, attempts: seq<Attempt>)
    requires b.state == Open && OneByOne(attempts)
    ensures AfterAttempts(o, b, attempts).state == Open
    ensures AfterAttempts(o, b, attempts).openedAt >= b.openedAt + Times(Ran(o, b, attempts), o.resetTimeoutMs)
    decreases |attempts|
  {
    if attempts != [] {
      var front, last := attempts[..|attempts| - 1], attempts[|attempts| - 1];
      OpenedLater(o, b, front);
      assert last.first <= last.second <= last.done;
    }
  }

  function Times(n: nat, d: int): int {
    if n == 0 then 0 else Times(n - 1, d) + d
  }

  // The calls that run within a span after the opening take up a timeout each.
  lemma {:induction false} RanFits(o: Options, b: Breaker, attempts: seq<Attempt>, span: nat)
    requires b.state == Open && OneByOne(attempts)
    requires forall i :: 0 <= i < |attempts| ==> attempts[i].first <= b.openedAt + span
    ensures Times(Ran(o, b, attempts), o.resetTimeoutMs) <= span
    decreases |attempts|
  {
    if attempts != [] {
      RanFits(o, b, attempts[..|attempts| - 1], span);
      OpenedLater(o, b, attempts[..|attempts| - 1]);
    }
  }

  /** With failing calls one by one, at most T / resetTimeoutMs of them run within T of the opening. */
  lemma ProbeRate(o: Options, b: Breaker, attempts: seq<Attempt>, span: nat)
    requires b.state == Open && OneByOne(attempts) && o.resetTimeoutMs > 0
    requires forall i :: 0 <= i < |attempts| ==> attempts[i].first <= b.openedAt + span
    ensures Ran(o, b, attempts) <= span / o.resetTimeoutMs
  {
    RanFits(o, b, attempts, span);
    TimesIsProduct(Ran(o, b, attempts), o.resetTimeoutMs);
    Divides(Ran(o, b, attempts), o.resetTimeoutMs, span);
  }

  lemma {:induction false} TimesIsProduct(n: nat, d: int)
    ensures Times(n, d) == n * d
  {
    if n > 0 {
      TimesIsProduct(n - 1, d);
      assert (n - 1) * d == n * d - d;
    }
  }

  lemma Divides(n: nat, d: nat, span: nat)
    requires d > 0 && n * d <= span
    ensures n <= span / d
  {
    var q := span / d;
    assert span < (q + 1) * d;
    if n > q {
      TimesMonotone(q + 1, n, d);
    }
  }

  lemma TimesMonotone(a: nat, b: nat, d: nat)
    requires a <= b
    ensures a * d <= b * d
  {
  }
}
