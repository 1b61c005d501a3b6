/** The job life cycle of `core/state.py` and the part of `scheduler/runner.py` that drives it. */
module JobStates {
  datatype JobState = Pending | Scheduled | Running | Completed | Failed | Retrying | Cancelled | Timeout

  /** `VALID_TRANSITIONS`. */
  function Successors(s: JobState): set<JobState> {
    match s
    case Pending => {Scheduled, Cancelled}
    case Scheduled => {Running, Cancelled}
    case Running => {Completed, Failed, Retrying, Timeout}
    case Retrying => {Scheduled, Cancelled, Failed}
    case Timeout => {Retrying, Failed}
    case Completed => {}
    case Failed => {}
    case Cancelled => {}
  }

  predicate CanTransition(current: JobState, target: JobState) {
    target in Successors(current)
  }

  predicate Terminal(s: JobState) {
    s in {Completed, Failed, Cancelled}
  }

  // ---- histories: the states of one job in order

  ghost predicate IsHistory(h: seq<JobState>) {
    && h != []
    && h[0] == Pending
    && forall i :: 0 < i < |h| ==> CanTransition(h[i - 1], h[i])
  }

  ghost function Visits(h: seq<JobState>, s: JobState): nat {
    multiset(h)[s]
  }

  lemma HistoryPrefix(h: seq<JobState>)
    requires IsHistory(h) && |h| > 1
    ensures IsHistory(h[..|h| - 1])
    ensures forall s :: Visits(h, s) == Visits(h[..|h| - 1], s) + if h[|h| - 1] == s then 1 else 0
  {
    assert h == h[..|h| - 1] + [h[|h| - 1]];
  }

  /** A job runs at most once more often than it is retried, and a waiting job at most as often. */
  lemma {:induction false} RunsFollowRetries(h: seq<JobState>)
    requires IsHistory(h)
    ensures Visits(h, Running) <= Visits(h, Retrying) + 1
    ensures h[|h| - 1] in {Pending, Scheduled, Retrying} ==> Visits(h, Running) <= Visits(h, Retrying)
  {
    if |h| == 1 {
      assert h == [Pending];
    } else {
      HistoryPrefix(h);
      RunsFollowRetries(h[..|h| - 1]);
      assert CanTransition(h[|h| - 2], h[|h| - 1]);
    }
  }

  /** A terminal state ends its history, and it is entered at most once. */
  lemma TerminalIsLast(h: seq<JobState>, i: nat)
    requires IsHistory(h) && i < |h| && Terminal(h[i])
    ensures i == |h| - 1
    ensures Visits(h, Completed) + Visits(h, Failed) + Visits(h, Cancelled) == 1
  {
    assert i + 1 < |h| ==> CanTransition(h[i + 1 - 1], h[i + 1]);
    HistoryPrefix(h);
    NeverTerminalBefore(h[..|h| - 1]);
  }

  lemma {:induction false} NeverTerminalBefore(h: seq<JobState>)
    requires IsHistory(h) && Successors(h[|h| - 1]) != {}
    ensures Visits(h, Completed) == Visits(h, Failed) == Visits(h, Cancelled) == 0
  {
    if |h| == 1 {
      assert h == [Pending];
    } else {
      HistoryPrefix(h);
      assert CanTransition(h[|h| - 2], h[|h| - 1]);
      NeverTerminalBefore(h[..|h| - 1]);
    }
  }

  /** A completed job was scheduled, then ran, then completed. */
  lemma CompletedHasRun(h: seq<JobState>)
    requires IsHistory(h) && h[|h| - 1] == Completed
    ensures |h| >= 4 && h[|h| - 2] == Running && h[|h| - 3] == Scheduled
  {
    assert CanTransition(h[|h| - 2], h[|h| - 1]);
    assert CanTransition(h[|h| - 3], h[|h| - 2]);
  }

  // ---- which states reach which

  /** From where each state is entered: in particular CANCELLED never from RUNNING or TIMEOUT. */
  lemma EnteredFrom(s: JobState)
    ensures !CanTransition(s, Pending)
    ensures CanTransition(s, Scheduled) <==> s == Pending || s == Retrying
    ensures CanTransition(s, Running) <==> s == Scheduled
    ensures CanTransition(s, Completed) <==> s == Running
    ensures CanTransition(s, Timeout) <==> s == Running
    ensures CanTransition(s, Retrying) <==> s == Running || s == Timeout
    ensures CanTransition(s, Failed) <==> s == Running || s == Timeout || s == Retrying
    ensures CanTransition(s, Cancelled) <==> s == Pending || s == Scheduled || s == Retrying
  {}

  /** Some sequence of at least one transition leads from `s` to `t`. */
  ghost predicate Reaches(s: JobState, t: JobState) {
    exists h :: IsPath(h, s, t)
  }

  ghost predicate IsPath(h: seq<JobState>, s: JobState, t: JobState) {
    && |h| >= 2 && h[0] == s && h[|h| - 1] == t
    && forall i :: 0 < i < |h| ==> CanTransition(h[i - 1], h[i])
  }

  lemma StepReaches(s: JobState, t: JobState)
    requires CanTransition(s, t)
    ensures Reaches(s, t)
  {
    assert IsPath([s, t], s, t);
  }

  lemma ReachesThrough(s: JobState, u: JobState, t: JobState)
    requires Reaches(s, u) && Reaches(u, t)
    ensures Reaches(s, t)
  {
    var h :| IsPath(h, s, u);
    var k :| IsPath(k, u, t);
    var path := h + k[1..];
    forall i | 0 < i < |path| ensures CanTransition(path[i - 1], path[i]) {
      if i >= |h| {
        assert path[i] == k[i - |h| + 1];
        assert path[i - 1] == k[i - |h|];
      }
    }
    assert IsPath(path, s, t);
  }

  /** Every unfinished job can still be scheduled. */
  lemma ReachesScheduled(s: JobState)
    requires !Terminal(s)
    ensures Reaches(s, Scheduled)
  {
    StepReaches(Retrying, Scheduled);
    StepReaches(Running, Retrying);
    ReachesThrough(Running, Retrying, Scheduled);
    if s == Pending {
      StepReaches(Pending, Scheduled);
    } else if s == Scheduled {
      StepReaches(Scheduled, Running);
      ReachesThrough(Scheduled, Running, Scheduled);
    } else if s == Timeout {
      StepReaches(Timeout, Retrying);
      ReachesThrough(Timeout, Retrying, Scheduled);
    }
  }

  lemma ScheduledReaches(t: JobState)
    requires t != Pending
    ensures Reaches(Scheduled, t)
  {
    StepReaches(Scheduled, Running);
    if t == Scheduled {
      ReachesScheduled(Scheduled);
    } else if t == Cancelled {
      StepReaches(Scheduled, Cancelled);
    } else if t != Running {
      StepReaches(Running, t);
      ReachesThrough(Scheduled, Running, t);
    }
  }

  /** Exactly the unfinished states lead on, and they lead to every state but PENDING. */
  lemma ReachesIff(s: JobState, t: JobState)
    ensures Reaches(s, t) <==> !Terminal(s) && t != Pending
  {
    if !Terminal(s) && t != Pending {
      ReachesScheduled(s);
      ScheduledReaches(t);
      ReachesThrough(s, Scheduled, t);
    }
    if Reaches(s, t) {
      var h :| IsPath(h, s, t);
      assert CanTransition(h[0], h[1]);
      assert CanTransition(h[|h| - 2], h[|h| - 1]);
    }
  }

  // ---- the machine

  class StatefulJob {
    var state: JobState

    constructor ()
      ensures state == Pending
    {
      state := Pending;
    }
  }

  datatype TransitionResult = Done | InvalidTransition | NotPersisted

  /** `transition`: `persists` tells whether the job store, if there is one, accepts the update. */
  method Transition(job: StatefulJob, target: JobState, persists: bool) returns (r: TransitionResult)
    modifies job
    ensures r == if !CanTransition(old(job.state), target) then InvalidTransition
                 else if persists then Done else NotPersisted
    ensures job.state == if r == Done then target else old(job.state)
  {
    var current := job.state;
    if !CanTransition(current, target) {
      return InvalidTransition;
    }
    job.state := target;
    if !persists {
      job.state := current;
      return NotPersisted;
    }
    return Done;
  }

  /** The state in which `JobRunner.run` executes the function of a job it was given in state `s`. */
  function StateWhileRunning(s: JobState): JobState {
    if s in {Pending, Scheduled, Retrying, Running} then Running else s
  }

  /**
   * The transitions of `JobRunner.run` before the function is executed. `first` and `second` tell whether the store
   * accepts the update of the first and of the second transition, where there is one.
   */
  method EnterRunning(job: StatefulJob, first: bool, second: bool) returns (started: bool)
    modifies job
    ensures started <==>
            match old(job.state)
            case Pending => first && second
            case Retrying => first && second
            case Scheduled => first
            case _ => true
    ensures job.state ==
            match old(job.state)
            case Pending => if !first then Pending else if second then Running else Scheduled
            case Retrying => if !first then Retrying else if second then Running else Scheduled
            case Scheduled => if first then Running else Scheduled
            case other => other
    ensures started ==> job.state == StateWhileRunning(old(job.state))
  {
    var r, persists := Done, first;
    if job.state == Pending {
      r := Transition(job, Scheduled, first);
      if r != Done {
        return false;
      }
      persists := second;
    }
    if job.state == Scheduled {
      r := Transition(job, Running, persists);
    } else if job.state != Running {
      if job.state == Retrying {
        r := Transition(job, Scheduled, first);
        if r != Done {
          return false;
        }
        r := Transition(job, Running, second);
      } else {
        // The program would try RUNNING if it were a valid transition, but no remaining state has it.
        assert !CanTransition(job.state, Running);
      }
    }
    return r == Done;
  }

  /** The runner executes a job in another state than RUNNING exactly when it was finished or timed out. */
  lemma RunsOutsideRunning(s: JobState)
    ensures StateWhileRunning(s) != Running <==> Terminal(s) || s == Timeout
    ensures StateWhileRunning(s) == Running <==> CanTransition(StateWhileRunning(s), Completed)
  {}
}

/** The retry policy of `scheduler/retry.py`, over the reals. */
module RetryPolicies {
  import opened Wrappers

  datatype RetryPolicy = RetryPolicy(maxRetries: int, initialDelay: real, maxDelay: real, base: real, jitter: bool)

  function Power(base: real, n: nat): real {
    if n == 0 then 1.0 else base * Power(base, n - 1)
  }

  function Capped(p: RetryPolicy, retryCount: nat): real {
    var delay := p.initialDelay * Power(p.base, retryCount);
    if delay < p.maxDelay then delay else p.maxDelay
  }

  /** `calculate_delay`, where `random` is what `random.random()` returned. */
  function Delay(p: RetryPolicy, retryCount: nat, random: real): real {
    if p.jitter then Capped(p, retryCount) * (0.5 + random) else Capped(p, retryCount)
  }

  ghost predicate Random(r: real) {
    0.0 <= r < 1.0
  }

  function Smaller(a: real, b: real): real {
    if a < b then a else b
  }

  /** Without jitter the first delay is the initial one, if that is not above the cap. */
  lemma FirstDelay(p: RetryPolicy, random: real)
    requires !p.jitter
    ensures Delay(p, 0, random) == Smaller(p.initialDelay, p.maxDelay)
  {
    assert Power(p.base, 0) == 1.0;
  }

  /** Each further one is the one before times the base, up to the cap. */
  lemma NextDelay(p: RetryPolicy, retryCount: nat, random: real)
    requires !p.jitter && p.base >= 1.0 && p.maxDelay >= 0.0
    ensures Delay(p, retryCount + 1, random) == Smaller(p.base * Delay(p, retryCount, random), p.maxDelay)
  {
    MulSwap(p.initialDelay, p.base, Power(p.base, retryCount));
    CapAbsorbs(p.base, p.initialDelay * Power(p.base, retryCount), p.maxDelay);
  }

  lemma MulSwap(a: real, b: real, c: real)
    ensures a * (b * c) == b * (a * c)
  {}

  lemma CapAbsorbs(base: real, delay: real, cap: real)
    requires base >= 1.0 && cap >= 0.0
    ensures Smaller(base * delay, cap) == Smaller(base * Smaller(delay, cap), cap)
  {
    if delay >= cap {
      MulMonotone(cap, delay, base);
      MulMonotone(1.0, base, cap);
    }
  }

  /** Jitter multiplies the delay by a factor from one half up to, but not including, one and a half. */
  lemma JitterScales(p: RetryPolicy, retryCount: nat, random: real)
    requires p.jitter && Random(random)
    ensures var factor, plain := 0.5 + random, Delay(p.(jitter := false), retryCount, random);
            0.5 <= factor < 1.5 && Delay(p, retryCount, random) == factor * plain
  {}

  /** The documented delays of the default policy. */
  lemma DefaultDelays(random: real)
    ensures var p := RetryPolicy(3, 1.0, 300.0, 2.0, false);
            && Delay(p, 0, random) == 1.0 && Delay(p, 1, random) == 2.0
            && Delay(p, 2, random) == 4.0 && Delay(p, 3, random) == 8.0
  {
    var p := RetryPolicy(3, 1.0, 300.0, 2.0, false);
    FirstDelay(p, random);
    NextDelay(p, 0, random);
    NextDelay(p, 1, random);
    NextDelay(p, 2, random);
  }

  /**
   * The delay is documented as capped by `max_delay`, but jitter comes after the cap: some draw exceeds the cap
   * exactly when there is jitter and the capped delay times its most extreme factor does.
   */
  lemma DelayExceedsCapIff(p: RetryPolicy, retryCount: nat)
    ensures (exists r :: Random(r) && Delay(p, retryCount, r) > p.maxDelay) <==>
            p.jitter && ExtremeDelay(Capped(p, retryCount)) > p.maxDelay
  {
    var c, m := Capped(p, retryCount), p.maxDelay;
    if p.jitter && ExtremeDelay(c) > m {
      var r := if c > 0.0 then BetweenFactors(c, m) else 0.0;
      assert Random(r) && Delay(p, retryCount, r) == c * (0.5 + r);
    }
    forall r | Random(r) && p.jitter ensures Delay(p, retryCount, r) <= ExtremeDelay(c) {
      JitterBounds(c, r);
    }
  }

  /** The default delays with ten retries exceed their cap of 300 seconds within those retries. */
  lemma TenRetriesExceedCap()
    ensures var p := RetryPolicy(10, 1.0, 300.0, 2.0, true);
            ShouldRetry(p, 9, None) && exists r :: Random(r) && Delay(p, 9, r) > p.maxDelay
  {
    var p := RetryPolicy(10, 1.0, 300.0, 2.0, true);
    assert Power(2.0, 4) == 16.0;
    assert Power(2.0, 8) == 256.0;
    assert Capped(p, 9) == 300.0;
    DelayExceedsCapIff(p, 9);
  }

  /** Some retry the policy allows can ask for more than its cap. */
  ghost predicate MayExceedCap(p: RetryPolicy) {
    exists n: nat, r :: ShouldRetry(p, n, None) && Random(r) && Delay(p, n, r) > p.maxDelay
  }

  /**
   * With delays that do not shrink, some allowed retry can exceed the cap exactly when the last one can: when one and
   * a half times its capped delay is more than the cap.
   */
  lemma ExceedsCapWithinRetriesIff(p: RetryPolicy)
    requires p.initialDelay >= 0.0 && p.base >= 1.0 && p.maxDelay >= 0.0
    ensures MayExceedCap(p) <==> p.jitter && p.maxRetries > 0 && Capped(p, p.maxRetries - 1) * 1.5 > p.maxDelay
  {
    forall n: nat | n < p.maxRetries ensures 0.0 <= Capped(p, n) <= Capped(p, p.maxRetries - 1) {
      BackoffIsMonotone(p, n, p.maxRetries - 1);
      DelayWithinJitter(p, n, 0.0);
    }
    if p.jitter && p.maxRetries > 0 && Capped(p, p.maxRetries - 1) * 1.5 > p.maxDelay {
      DelayExceedsCapIff(p, p.maxRetries - 1);
      assert ShouldRetry(p, p.maxRetries - 1, None);
    }
    forall n: nat, r | ShouldRetry(p, n, None) && Random(r) && Delay(p, n, r) > p.maxDelay
      ensures p.jitter && p.maxRetries > 0 && Capped(p, p.maxRetries - 1) * 1.5 > p.maxDelay
    {
      DelayExceedsCapIff(p, n);
    }
  }

  /** So the default policy, with its three retries, stays below its cap. */
  lemma DefaultPolicyWithinCap()
    ensures !MayExceedCap(RetryPolicy(3, 1.0, 300.0, 2.0, true))
  {
    var p := RetryPolicy(3, 1.0, 300.0, 2.0, true);
    ExceedsCapWithinRetriesIff(p);
    assert Capped(p, 2) == 4.0;
  }

  /** The supremum of the jittered delays. */
  function ExtremeDelay(capped: real): real {
    if capped >= 0.0 then capped * 1.5 else capped * 0.5
  }

  lemma JitterBounds(c: real, r: real)
    requires Random(r)
    ensures c * (0.5 + r) <= ExtremeDelay(c)
    ensures c >= 0.0 ==> c * 0.5 <= c * (0.5 + r)
  {
    assert c * (0.5 + r) == c * 0.5 + c * r;
    if c >= 0.0 {
      assert c * r <= c * 1.0;
    } else {
      assert c * r <= 0.0;
    }
  }

  lemma OrderedByFactor(a: real, b: real, c: real)
    requires c > 0.0
    ensures a < b <==> a * c < b * c
  {
    assert (b - a) * c == b * c - a * c;
    assert b - a > 0.0 ==> (b - a) * c > 0.0;
    assert a - b >= 0.0 ==> (a - b) * c >= 0.0;
  }

  /** A draw below one that still takes a positive delay over the limit. */
  ghost function BetweenFactors(c: real, limit: real): (r: real)
    requires c > 0.0 && 0.0 <= limit < 1.5 * c
    ensures Random(r) && c * (0.5 + r) > limit
  {
    var low := limit / c;
    assert low * c == limit;
    OrderedByFactor(low, 1.5, c);
    OrderedByFactor(low, 0.0, c);
    assert 0.0 <= low < 1.5;
    var r := 0.5 * low + 0.25;
    OrderedByFactor(low, 0.5 + r, c);
    assert c * (0.5 + r) == (0.5 + r) * c;
    r
  }

  lemma MulNonNegative(a: real, b: real)
    requires a >= 0.0 && b >= 0.0
    ensures a * b >= 0.0
  {}

  lemma MulMonotone(a: real, b: real, c: real)
    requires a <= b && c >= 0.0
    ensures c * a <= c * b
  {
    MulNonNegative(c, b - a);
    assert c * (b - a) == c * b - c * a;
  }

  lemma {:induction false} PowerNonNegative(base: real, n: nat)
    requires base >= 0.0
    ensures Power(base, n) >= 0.0
  {
    if n > 0 {
      PowerNonNegative(base, n - 1);
      MulNonNegative(base, Power(base, n - 1));
    }
  }

  lemma {:induction false} PowerMonotone(base: real, m: nat, n: nat)
    requires base >= 1.0 && m <= n
    ensures Power(base, m) <= Power(base, n)
  {
    if m < n {
      PowerMonotone(base, m, n - 1);
      PowerNonNegative(base, n - 1);
      MulMonotone(1.0, base, Power(base, n - 1));
    }
  }

  lemma CappedNonNegative(p: RetryPolicy, retryCount: nat)
    requires p.initialDelay >= 0.0 && p.base >= 0.0 && p.maxDelay >= 0.0
    ensures Capped(p, retryCount) >= 0.0
  {
    PowerNonNegative(p.base, retryCount);
    MulNonNegative(p.initialDelay, Power(p.base, retryCount));
  }

  /** With jitter every delay lies within half the capped delay and one and a half times the cap. */
  lemma DelayWithinJitter(p: RetryPolicy, retryCount: nat, random: real)
    requires Random(random) && p.initialDelay >= 0.0 && p.base >= 0.0 && p.maxDelay >= 0.0
    ensures 0.5 * Capped(p, retryCount) <= Delay(p, retryCount, random) <= 1.5 * p.maxDelay
    ensures Capped(p, retryCount) >= 0.0
  {
    CappedNonNegative(p, retryCount);
    var c := Capped(p, retryCount);
    assert c <= p.maxDelay;
    JitterBounds(c, random);
  }

  /** Back-off never shortens the capped delay: a later attempt waits at least as long. */
  lemma BackoffIsMonotone(p: RetryPolicy, m: nat, n: nat)
    requires p.initialDelay >= 0.0 && p.base >= 1.0 && m <= n
    ensures Capped(p, m) <= Capped(p, n)
  {
    PowerMonotone(p.base, m, n);
    MulMonotone(Power(p.base, m), Power(p.base, n), p.initialDelay);
  }

  /** `should_retry`; the error, when there is one, is given by whether it is an instance of `retry_on`. */
  predicate ShouldRetry(p: RetryPolicy, retryCount: int, error: Option<bool>) {
    retryCount < p.maxRetries && (error.Some? ==> error.value)
  }
}
