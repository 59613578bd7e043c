/** Whether a web server is still worth trying: a bounded record of attempts and an
    exponential back-off between retries. */
module Destinations {
  import opened Arithmetic
  import opened Sequences
  import opened Timestamps
  import opened Wrappers

  const MAX_NUM_DESTINATION_FAILURES: nat := 3
  const NUM_DESTINATION_ATTEMPTS_STORED: nat := 10
  const DELTA_SECONDS_RETRY_DESTINATION := 300.0
  const MAX_SECONDS_RETRY_DESTINATION := 10800.0
  const FACTOR_INCREMENT_DESTINATION_RETRY := 2.0

  datatype Attempt = Attempt(time: real, succeeded: bool)

  datatype Limits = Limits(maxNumFailures: nat, numAttemptsStored: nat,
                           defaultDelay: real, maxDelay: real, factor: real)
  {
    predicate Valid() {
      numAttemptsStored >= 1 && 0.0 < defaultDelay <= maxDelay && 1.0 <= factor
    }
  }

  function Failed(): Attempt -> bool { (a: Attempt) => !a.succeeded }

  /** Counts the failures among the last attempts that are stored. */
  predicate AreLastAttemptsFailures(attempts: seq<Attempt>, maxNumFailures: nat) {
    |Filter(LastN(attempts, Some(maxNumFailures)), Failed())| >= maxNumFailures
  }

  /** The last n attempts ever made all failed. */
  predicate LastAllFailed(history: seq<Attempt>, n: nat) {
    |history| >= n && forall a :: a in history[|history| - n..] ==> !a.succeeded
  }

  lemma {:induction false} FilterCounts(xs: seq<Attempt>)
    ensures |Filter(xs, Failed())| <= |xs|
    ensures |Filter(xs, Failed())| == |xs| <==> forall a :: a in xs ==> !a.succeeded
  {
    if xs != [] {
      FilterCounts(xs[1..]);
      assert xs == [xs[0]] + xs[1..];
    }
  }

  lemma LastOfLast(history: seq<Attempt>, stored: nat, n: nat)
    ensures n <= stored ==> LastN(LastN(history, Some(stored)), Some(n)) == LastN(history, Some(n))
    ensures n > stored ==> |LastN(LastN(history, Some(stored)), Some(n))| < n
  {
  }

  /** The test on the bounded record answers for the whole history exactly when the
      record is long enough, and is never true otherwise. */
  lemma FailureTestSeesWholeHistory(history: seq<Attempt>, stored: nat, n: nat)
    ensures AreLastAttemptsFailures(LastN(history, Some(stored)), n)
       <==> n <= stored && LastAllFailed(history, n)
  {
    var last := LastN(LastN(history, Some(stored)), Some(n));
    LastOfLast(history, stored, n);
    FilterCounts(last);
    if n <= stored && |history| >= n { assert last == history[|history| - n..]; }
  }

  function ConfiguredFailures(configured: Option<nat>, threads: nat): (n: nat)
    ensures n == threads * (if configured.Some? && configured.value > 0 then configured.value else 3)
  {
    (if configured.None? || configured.value == 0 then MAX_NUM_DESTINATION_FAILURES else configured.value)
    * threads
  }

  /** With the default settings and four or more threads no destination is ever found
      to be failing, because only ten attempts are stored. */
  lemma ManyThreadsNeverDisable(history: seq<Attempt>, threads: nat)
    requires threads >= 4
    ensures !AreLastAttemptsFailures(LastN(history, Some(NUM_DESTINATION_ATTEMPTS_STORED)),
                                     ConfiguredFailures(None, threads))
  {
    FailureTestSeesWholeHistory(history, NUM_DESTINATION_ATTEMPTS_STORED, ConfiguredFailures(None, threads));
  }

  // ----- Back-off

  function Power(x: real, k: nat): real { if k == 0 then 1.0 else Power(x, k - 1) * x }

  /** The delay after k granted retries. */
  function Backoff(l: Limits, k: nat): real { MinReal(l.defaultDelay * Power(l.factor, k), l.maxDelay) }

  function Incremented(l: Limits, delay: real): real {
    if delay * l.factor > l.maxDelay then l.maxDelay else delay * l.factor
  }

  lemma {:induction false} PowerAtLeastOne(x: real, k: nat)
    requires x >= 1.0
    ensures Power(x, k) >= 1.0
  {
    if k > 0 {
      PowerAtLeastOne(x, k - 1);
      ScaleRealOrder(1.0, Power(x, k - 1), x);
    }
  }

  lemma BackoffBounds(l: Limits, k: nat)
    requires l.Valid()
    ensures l.defaultDelay <= Backoff(l, k) <= l.maxDelay
  {
    PowerAtLeastOne(l.factor, k);
    ScaleRealOrder(1.0, Power(l.factor, k), l.defaultDelay);
  }

  lemma GrowthKeepsAbove(x: real, f: real, cap: real)
    requires x >= cap > 0.0 && f >= 1.0
    ensures x * f >= cap
  {
    ScaleRealOrder(cap, x, f);
    ScaleRealOrder(1.0, f, cap);
  }

  lemma BackoffStep(l: Limits, k: nat)
    requires l.Valid()
    ensures Incremented(l, Backoff(l, k)) == Backoff(l, k + 1)
  {
    var d, p, f := l.defaultDelay, Power(l.factor, k), l.factor;
    RealAssociates(d, p, f);
    if d * p > l.maxDelay {
      GrowthKeepsAbove(d * p, f, l.maxDelay);
      GrowthKeepsAbove(l.maxDelay, f, l.maxDelay);
    }
  }

  const DEFAULT_LIMITS := Limits(MAX_NUM_DESTINATION_FAILURES, NUM_DESTINATION_ATTEMPTS_STORED,
                                 DELTA_SECONDS_RETRY_DESTINATION, MAX_SECONDS_RETRY_DESTINATION,
                                 FACTOR_INCREMENT_DESTINATION_RETRY)

  lemma {:induction false} PowersOfTwo(k: nat)
    ensures k <= 5 ==> Power(2.0, k) <= 32.0
    ensures k >= 6 ==> Power(2.0, k) >= 64.0
  {
    if k > 0 { PowersOfTwo(k - 1); }
    if k == 5 { assert Power(2.0, 4) == 16.0; }
    if k == 6 { assert Power(2.0, 5) == 32.0; }
  }

  /** With the defaults the delay reaches its cap of three hours at the sixth retry. */
  lemma DefaultDelays(k: nat)
    ensures DEFAULT_LIMITS.Valid()
    ensures Backoff(DEFAULT_LIMITS, k) == MAX_SECONDS_RETRY_DESTINATION <==> k >= 6
  {
    PowersOfTwo(k);
  }

  lemma IncrementedStays(l: Limits, delay: real)
    requires l.Valid() && l.defaultDelay <= delay <= l.maxDelay
    ensures l.defaultDelay <= Incremented(l, delay) <= l.maxDelay
  {
    GrowthKeepsAbove(delay, l.factor, l.defaultDelay);
  }

  lemma RealAssociates(a: real, b: real, c: real)
    ensures a * (b * c) == (a * b) * c
  {
  }

  // ----- The destination over a run of operations

  datatype Op = AddFailure(at: real) | AddSuccess(at: real) | IsFunctional(now: real)

  datatype State = State(attempts: seq<Attempt>, delay: real)

  predicate Failing(l: Limits, s: State) { AreLastAttemptsFailures(s.attempts, l.maxNumFailures) }

  /** A retry is granted when the last attempt is longer ago than the delay. */
  predicate Grants(l: Limits, s: State, now: real) {
    Failing(l, s) && s.attempts != [] && now - s.attempts[|s.attempts| - 1].time > s.delay
  }

  function Step(l: Limits, s: State, op: Op): State {
    match op
    case AddFailure(t) => s.(attempts := LastN(s.attempts + [Attempt(t, false)], Some(l.numAttemptsStored)))
    case AddSuccess(t) => s.(attempts := LastN(s.attempts + [Attempt(t, true)], Some(l.numAttemptsStored)))
    case IsFunctional(now) =>
      if Grants(l, s, now) then s.(delay := Incremented(l, s.delay))
      else if Failing(l, s) then s
      else s.(delay := l.defaultDelay)
  }

  function RunFrom(l: Limits, s: State, ops: seq<Op>): State {
    if ops == [] then s else Step(l, RunFrom(l, s, ops[..|ops| - 1]), ops[|ops| - 1])
  }

  /** What the stored attempts answer is what all attempts ever made do. */
  lemma AnswerFromHistory(l: Limits, s: State, history: seq<Attempt>, now: real)
    requires l.Valid() && history != [] && s.attempts == LastN(history, Some(l.numAttemptsStored))
    ensures Failing(l, s) <==> l.maxNumFailures <= l.numAttemptsStored && LastAllFailed(history, l.maxNumFailures)
    ensures s.attempts != [] && s.attempts[|s.attempts| - 1] == history[|history| - 1]
    ensures Grants(l, s, now) <==> Failing(l, s) && now - history[|history| - 1].time > s.delay
  {
    FailureTestSeesWholeHistory(history, l.numAttemptsStored, l.maxNumFailures);
  }

  /** How many retries a run grants. */
  function Retries(l: Limits, s: State, ops: seq<Op>): nat {
    if ops == [] then 0
    else
      var before, op := ops[..|ops| - 1], ops[|ops| - 1];
      Retries(l, s, before)
      + if op.IsFunctional? && Grants(l, RunFrom(l, s, before), op.now) then 1 else 0
  }

  /** Failing does not end without a success. */
  lemma FailingLasts(l: Limits, s: State, op: Op)
    requires l.Valid() && Failing(l, s) && !op.AddSuccess?
    requires s.attempts == LastN(s.attempts, Some(l.numAttemptsStored))
    ensures Failing(l, Step(l, s, op))
  {
    if op.AddFailure? {
      var n, stored := l.maxNumFailures, l.numAttemptsStored;
      var history := s.attempts + [Attempt(op.at, false)];
      FailureTestSeesWholeHistory(s.attempts, stored, n);
      FailureTestSeesWholeHistory(history, stored, n);
    }
  }

  /** Where a run without success stands after k granted retries. */
  predicate BackedOff(l: Limits, s: State, k: nat) {
    && s.delay == Backoff(l, k)
    && s.attempts == LastN(s.attempts, Some(l.numAttemptsStored))
    && (k > 0 ==> Failing(l, s))
  }

  lemma StepBacksOff(l: Limits, s: State, op: Op, k: nat)
    requires l.Valid() && BackedOff(l, s, k) && !op.AddSuccess?
    ensures BackedOff(l, Step(l, s, op), k + if op.IsFunctional? && Grants(l, s, op.now) then 1 else 0)
  {
    if Failing(l, s) { FailingLasts(l, s, op); }
    if op.IsFunctional? {
      BackoffStep(l, k);
      BackoffBounds(l, 0);
    }
  }

  predicate NoSuccess(ops: seq<Op>) { forall i :: 0 <= i < |ops| ==> !ops[i].AddSuccess? }

  /** After k granted retries and no success the delay is the default times the factor
      to the k, or the cap if that is less. */
  lemma {:induction false} DelayAfterRetries(l: Limits, s: State, ops: seq<Op>)
    requires l.Valid() && s.delay == l.defaultDelay
    requires s.attempts == LastN(s.attempts, Some(l.numAttemptsStored))
    requires NoSuccess(ops)
    ensures BackedOff(l, RunFrom(l, s, ops), Retries(l, s, ops))
    decreases |ops|
  {
    if ops == [] {
      BackoffBounds(l, 0);
    } else {
      var before, op := ops[..|ops| - 1], ops[|ops| - 1];
      DelayAfterRetries(l, s, before);
      StepBacksOff(l, RunFrom(l, s, before), op, Retries(l, s, before));
    }
  }

  /** In every run, with successes and resets, the delay stays within its bounds. */
  lemma {:induction false} DelayStaysBounded(l: Limits, s: State, ops: seq<Op>)
    requires l.Valid() && l.defaultDelay <= s.delay <= l.maxDelay
    ensures l.defaultDelay <= RunFrom(l, s, ops).delay <= l.maxDelay
    decreases |ops|
  {
    if ops != [] {
      DelayStaysBounded(l, s, ops[..|ops| - 1]);
      IncrementedStays(l, RunFrom(l, s, ops[..|ops| - 1]).delay);
    }
  }

  class Destination {
    const limits: Limits
    var attempts: seq<Attempt>
    var delaySecondsRetry: real
    ghost var history: seq<Attempt>

    ghost predicate Valid()
      reads this
    {
      && limits.Valid()
      && history != []
      && attempts == LastN(history, Some(limits.numAttemptsStored))
      && limits.defaultDelay <= delaySecondsRetry <= limits.maxDelay
    }

    ghost function Abstract(): State
      reads this
    {
      State(attempts, delaySecondsRetry)
    }

    /** Starts as if it had just succeeded. */
    constructor (limits: Limits, now: real)
      requires limits.Valid()
      ensures Valid() && this.limits == limits && history == [Attempt(now, true)]
      ensures Abstract() == State([Attempt(now, true)], limits.defaultDelay)
    {
      this.limits := limits;
      attempts := [Attempt(now, true)];
      delaySecondsRetry := limits.defaultDelay;
      history := [Attempt(now, true)];
    }

    method IncrementTimeToRetry()
      modifies `delaySecondsRetry
      ensures delaySecondsRetry == Incremented(limits, old(delaySecondsRetry))
    {
      delaySecondsRetry := delaySecondsRetry * limits.factor;
      if delaySecondsRetry > limits.maxDelay { delaySecondsRetry := limits.maxDelay; }
    }

    method IsFunctional(now: real) returns (functional: bool)
      requires Valid()
      modifies `delaySecondsRetry
      ensures Valid() && Abstract() == Step(limits, old(Abstract()), Op.IsFunctional(now))
      ensures var failing := limits.maxNumFailures <= limits.numAttemptsStored
                             && LastAllFailed(history, limits.maxNumFailures);
              functional <==> (!failing || now - history[|history| - 1].time > old(delaySecondsRetry))
    {
      AnswerFromHistory(limits, Abstract(), history, now);
      IncrementedStays(limits, delaySecondsRetry);
      if AreLastAttemptsFailures(attempts, limits.maxNumFailures) {
        if now - attempts[|attempts| - 1].time > delaySecondsRetry {
          IncrementTimeToRetry();
          return true;
        }
        return false;
      }
      delaySecondsRetry := limits.defaultDelay;
      functional := true;
    }

    method AddFailure(t: real)
      requires Valid()
      modifies `attempts, `history
      ensures Valid() && history == old(history) + [Attempt(t, false)]
      ensures Abstract() == Step(limits, old(Abstract()), Op.AddFailure(t))
    {
      attempts := LastN(attempts + [Attempt(t, false)], Some(limits.numAttemptsStored));
      history := history + [Attempt(t, false)];
    }

    method AddSuccess(t: real)
      requires Valid()
      modifies `attempts, `history
      ensures Valid() && history == old(history) + [Attempt(t, true)]
      ensures Abstract() == Step(limits, old(Abstract()), Op.AddSuccess(t))
    {
      attempts := LastN(attempts + [Attempt(t, true)], Some(limits.numAttemptsStored));
      history := history + [Attempt(t, true)];
    }
  }
}
