/** The tutor's circuit breaker, over any run of calls and of outcomes that arrive late, in any state. */
module CircuitBreaker {
  import opened Wrappers

  datatype Options =
    Options(failureThreshold: nat, resetTimeoutMs: nat, halfOpenMaxAttempts: nat, maxResetTimeoutMs: nat)

  datatype CircuitState = CLOSED | OPEN | HALF_OPEN

  datatype Breaker = Breaker(state: CircuitState, failures: nat, lastFailureTime: int, timeout: nat, attempts: nat)

  datatype Verdict = Admitted | Rejected(retryAfterMs: int)

  function Min(a: nat, b: nat): nat { if a < b then a else b }

  function Initial(o: Options): Breaker { Breaker(CLOSED, 0, 0, o.resetTimeoutMs, 0) }

  predicate IsDue(b: Breaker, now: int) { b.state.OPEN? && now - b.lastFailureTime >= b.timeout }

  /** Reading the state moves an open breaker that is due. */
  function Observed(b: Breaker, now: int): Breaker {
    if IsDue(b, now) then b.(state := HALF_OPEN, attempts := 0) else b
  }

  function RetryAfterMs(b: Breaker, now: int): int {
    if !b.state.OPEN? || b.timeout <= now - b.lastFailureTime then 0
    else b.timeout - (now - b.lastFailureTime)
  }

  function VerdictOf(o: Options, b: Breaker, now: int): Verdict {
    var b1 := Observed(b, now);
    if b1.state.OPEN? || (b1.state.HALF_OPEN? && b1.attempts >= o.halfOpenMaxAttempts)
    then Rejected(RetryAfterMs(b1, now)) else Admitted
  }

  function Asserted(o: Options, b: Breaker, now: int): Breaker {
    var b1 := Observed(b, now);
    if b1.state.HALF_OPEN? && b1.attempts < o.halfOpenMaxAttempts then b1.(attempts := b1.attempts + 1) else b1
  }

  function Succeeded(o: Options, b: Breaker): Breaker {
    if b.state.HALF_OPEN? then Breaker(CLOSED, 0, b.lastFailureTime, o.resetTimeoutMs, 0) else b.(failures := 0)
  }

  function Failed(o: Options, b: Breaker, now: int): Breaker {
    var b1 := b.(failures := b.failures + 1);
    if b.state.HALF_OPEN? then
      b1.(state := OPEN, lastFailureTime := now, timeout := Min(b.timeout * 2, o.maxResetTimeoutMs))
    else if b1.failures >= o.failureThreshold then b1.(state := OPEN, lastFailureTime := now)
    else b1
  }

  class CircuitBreaker {
    const options: Options
    var state: CircuitState
    var consecutiveFailures: nat
    var lastFailureTime: int
    var currentResetTimeoutMs: nat
    var halfOpenAttempts: nat

    ghost function Value(): Breaker
      reads this
    {
      Breaker(state, consecutiveFailures, lastFailureTime, currentResetTimeoutMs, halfOpenAttempts)
    }

    constructor (options: Options)
      ensures this.options == options && Value() == Initial(options)
    {
      this.options := options;
      state := CLOSED;
      consecutiveFailures := 0;
      lastFailureTime := 0;
      currentResetTimeoutMs := options.resetTimeoutMs;
      halfOpenAttempts := 0;
    }

    method TransitionToOpen(now: int)
      modifies this
      ensures Value() == old(Value()).(state := OPEN, lastFailureTime := now)
    {
      state := OPEN;
      lastFailureTime := now;
    }

    method TransitionToClosed()
      modifies this
      ensures Value() == Breaker(CLOSED, 0, old(lastFailureTime), options.resetTimeoutMs, 0)
    {
      state := CLOSED;
      consecutiveFailures := 0;
      currentResetTimeoutMs := options.resetTimeoutMs;
      halfOpenAttempts := 0;
    }

    method GetState(now: int) returns (s: CircuitState)
      modifies this
      ensures Value() == Observed(old(Value()), now) && s == state
    {
      if state == OPEN && now - lastFailureTime >= currentResetTimeoutMs {
        state := HALF_OPEN;
        halfOpenAttempts := 0;
      }
      return state;
    }

    method GetRetryAfterMs(now: int) returns (ms: int)
      ensures ms == RetryAfterMs(Value(), now)
    {
      if state != OPEN { return 0; }
      var elapsed := now - lastFailureTime;
      return if currentResetTimeoutMs - elapsed < 0 then 0 else currentResetTimeoutMs - elapsed;
    }

    method AssertClosed(now: int) returns (verdict: Verdict)
      modifies this
      ensures verdict == VerdictOf(options, old(Value()), now)
      ensures Value() == Asserted(options, old(Value()), now)
    {
      if state == OPEN && now - lastFailureTime >= currentResetTimeoutMs {
        state := HALF_OPEN;
        halfOpenAttempts := 0;
      }
      if state == OPEN {
        var ms := GetRetryAfterMs(now);
        return Rejected(ms);
      }
      if state == HALF_OPEN && halfOpenAttempts >= options.halfOpenMaxAttempts {
        var ms := GetRetryAfterMs(now);
        return Rejected(ms);
      }
      if state == HALF_OPEN {
        halfOpenAttempts := halfOpenAttempts + 1;
      }
      return Admitted;
    }

    method RecordSuccess()
      modifies this
      ensures Value() == Succeeded(options, old(Value()))
    {
      if state == HALF_OPEN {
        TransitionToClosed();
      } else {
        consecutiveFailures := 0;
      }
    }

    method RecordFailure(now: int)
      modifies this
      ensures Value() == Failed(options, old(Value()), now)
    {
      consecutiveFailures := consecutiveFailures + 1;
      if state == HALF_OPEN {
        currentResetTimeoutMs := Min(currentResetTimeoutMs * 2, options.maxResetTimeoutMs);
        TransitionToOpen(now);
        return;
      }
      if consecutiveFailures >= options.failureThreshold {
        TransitionToOpen(now);
      }
    }

    /** Whole seconds, rounded up, or None when the breaker is not open. */
    method RetryAfterSeconds(now: int) returns (seconds: Option<int>)
      ensures seconds == None <==> state != OPEN
      ensures seconds.Some? ==> 1000 * (seconds.value - 1) < RetryAfterMs(Value(), now) <= 1000 * seconds.value
    {
      if state != OPEN { return None; }
      var ms := GetRetryAfterMs(now);
      return Some((ms + 999) / 1000);
    }
  }

  /** A stream reports its outcome once, whatever events it goes on to emit. */
  class StreamWrapper {
    const cb: CircuitBreaker
    var recorded: bool

    constructor (cb: CircuitBreaker)
      ensures this.cb == cb && !recorded
    {
      this.cb := cb;
      recorded := false;
    }

    method RecordOnce(success: bool, now: int)
      modifies this, cb
      ensures recorded
      ensures cb.Value() ==
              if old(recorded) then old(cb.Value())
              else if success then Succeeded(cb.options, old(cb.Value()))
              else Failed(cb.options, old(cb.Value()), now)
    {
      if recorded { return; }
      recorded := true;
      if success { cb.RecordSuccess(); } else { cb.RecordFailure(now); }
    }
  }

  // ---------- Runs ----------

  /** Calls are numbered as they are admitted; each may report any number of outcomes, of which the first counts. */
  datatype Action =
    | Call(t: int)
    | Observe(t: int)
    | Outcome(call: nat, success: bool, t: int)

  /**
   `streak` counts the failures recorded since the last recorded success, `backoffs` the
   failures recorded while half open since the breaker last closed, and `episode` the calls
   admitted since it last became half open.
   */
  datatype System = System(
    b: Breaker, clock: int, admitted: nat, recorded: set<nat>, outcomes: nat,
    streak: nat, backoffs: nat, episode: nat)

  predicate Enabled(s: System, a: Action) {
    a.t >= s.clock && (a.Outcome? ==> a.call < s.admitted)
  }

  predicate Counts(s: System, a: Action) { a.Outcome? && a.call !in s.recorded }

  function NextBreaker(o: Options, s: System, a: Action): Breaker {
    match a
    case Call(t) => Asserted(o, s.b, t)
    case Observe(t) => Observed(s.b, t)
    case Outcome(_, success, t) =>
      if !Counts(s, a) then s.b else if success then Succeeded(o, s.b) else Failed(o, s.b, t)
  }

  predicate Admits(o: Options, s: System, a: Action) { a.Call? && VerdictOf(o, s.b, a.t).Admitted? }

  function Next(o: Options, s: System, a: Action): System {
    var b := NextBreaker(o, s, a);
    var wasHalfOpen := s.b.state.HALF_OPEN?;
    System(
      b, a.t,
      s.admitted + if Admits(o, s, a) then 1 else 0,
      if Counts(s, a) then s.recorded + {a.call} else s.recorded,
      s.outcomes + if Counts(s, a) then 1 else 0,
      if Counts(s, a) then (if a.success then 0 else s.streak + 1) else s.streak,
      if Counts(s, a) && wasHalfOpen then (if a.success then 0 else s.backoffs + 1) else s.backoffs,
      (if !wasHalfOpen && b.state.HALF_OPEN? then 0 else s.episode) +
      if Admits(o, s, a) && b.state.HALF_OPEN? then 1 else 0)
  }

  predicate RunEnabled(o: Options, s: System, run: seq<Action>)
    decreases run
  {
    run != [] ==> Enabled(s, run[0]) && RunEnabled(o, Next(o, s, run[0]), run[1..])
  }

  function Run(o: Options, s: System, run: seq<Action>): System
    decreases run
  {
    if run == [] then s else Run(o, Next(o, s, run[0]), run[1..])
  }

  function Start(o: Options, clock: int): System { System(Initial(o), clock, 0, {}, 0, 0, 0, 0) }

  function Doubled(base: nat, k: nat): nat {
    if k == 0 then base else 2 * Doubled(base, k - 1)
  }

  /** The reset timeout after `k` failed probes: the base doubled `k` times, up to the maximum. */
  function Backoff(o: Options, k: nat): nat {
    if k == 0 then o.resetTimeoutMs else Min(Doubled(o.resetTimeoutMs, k), o.maxResetTimeoutMs)
  }

  predicate Sound(o: Options, s: System) {
    && s.b.failures == s.streak
    && (s.b.state.CLOSED? ==> (s.streak == 0 || s.streak < o.failureThreshold) && s.backoffs == 0)
    && s.b.timeout == Backoff(o, s.backoffs)
    && (s.b.state.HALF_OPEN? ==> s.b.attempts == s.episode <= o.halfOpenMaxAttempts)
    && (s.b.state.OPEN? ==> s.b.lastFailureTime <= s.clock)
    && (forall i | i in s.recorded :: i < s.admitted)
    && s.outcomes == |s.recorded|
  }

  /** A closed breaker has seen fewer consecutive failures than the threshold. */
  predicate ClosedIsBelow(o: Options, s: System) { s.b.state.CLOSED? ==> s.streak < o.failureThreshold }

  lemma BackoffStep(o: Options, k: nat)
    ensures Min(Backoff(o, k) * 2, o.maxResetTimeoutMs) == Backoff(o, k + 1)
  {
  }

  lemma StepIsSound(o: Options, s: System, a: Action)
    requires Sound(o, s) && Enabled(s, a)
    ensures Sound(o, Next(o, s, a))
  {
    BackoffStep(o, s.backoffs);
  }

  lemma {:induction false} RunIsSound(o: Options, s: System, run: seq<Action>)
    requires Sound(o, s) && RunEnabled(o, s, run)
    ensures Sound(o, Run(o, s, run))
    decreases run
  {
    if run != [] {
      StepIsSound(o, s, run[0]);
      RunIsSound(o, Next(o, s, run[0]), run[1..]);
    }
  }

  /**
   In every run the timeout is the base doubled per failed probe since the breaker last
   closed, a closed breaker is back at the base, a half-open episode admits at most its quota,
   and each call counts at most one outcome. Closed means fewer consecutive failures than the
   threshold, in every run, exactly when the threshold is positive.
   */
  lemma EveryRunIsSound(o: Options, clock: int)
    ensures forall run | RunEnabled(o, Start(o, clock), run) :: Sound(o, Run(o, Start(o, clock), run))
    ensures (forall run | RunEnabled(o, Start(o, clock), run) :: ClosedIsBelow(o, Run(o, Start(o, clock), run)))
            <==> o.failureThreshold > 0
  {
    var s := Start(o, clock);
    forall run | RunEnabled(o, s, run)
      ensures Sound(o, Run(o, s, run)) && (o.failureThreshold > 0 ==> ClosedIsBelow(o, Run(o, s, run)))
    {
      RunIsSound(o, s, run);
    }
    if o.failureThreshold == 0 {
      var none: seq<Action> := [];
      assert RunEnabled(o, s, none);
      assert !ClosedIsBelow(o, Run(o, s, none));
    }
  }

  // ---------- While closed ----------

  predicate AlwaysClosed(o: Options, s: System, run: seq<Action>)
    decreases run
  {
    s.b.state.CLOSED? && (run != [] ==> AlwaysClosed(o, Next(o, s, run[0]), run[1..]))
  }

  predicate StreakStaysBelow(o: Options, s: System, run: seq<Action>)
    decreases run
  {
    s.streak < o.failureThreshold && (run != [] ==> StreakStaysBelow(o, Next(o, s, run[0]), run[1..]))
  }

  /**
   A closed breaker opens neither early nor late: it stays closed just as long as no streak of
   failures reaches the threshold.
   */
  lemma {:induction false} OpensExactlyAtThreshold(o: Options, s: System, run: seq<Action>)
    requires Sound(o, s) && s.b.state.CLOSED? && RunEnabled(o, s, run) && o.failureThreshold > 0
    ensures AlwaysClosed(o, s, run) <==> StreakStaysBelow(o, s, run)
    decreases run
  {
    if run != [] {
      var s' := Next(o, s, run[0]);
      StepIsSound(o, s, run[0]);
      if s'.b.state.CLOSED? {
        OpensExactlyAtThreshold(o, s', run[1..]);
      }
    }
  }

  // ---------- While open ----------

  predicate AllBefore(run: seq<Action>, t: int) { forall a | a in run :: a.t < t }

  /** Calls of a run that were admitted. */
  function AdmittedIn(o: Options, s: System, run: seq<Action>): int { Run(o, s, run).admitted - s.admitted }

  /** From an opening until its timeout has passed nothing is admitted, whatever outcomes come in. */
  lemma {:induction false} NothingAdmittedWhileOpen(o: Options, s: System, run: seq<Action>)
    requires s.b.state.OPEN? && RunEnabled(o, s, run) && s.b.lastFailureTime <= s.clock
    requires AllBefore(run, s.b.lastFailureTime + s.b.timeout)
    ensures Run(o, s, run).b.state.OPEN? && AdmittedIn(o, s, run) == 0
    ensures Run(o, s, run).b.lastFailureTime >= s.b.lastFailureTime
    decreases run
  {
    if run != [] {
      var a := run[0];
      assert a.t < s.b.lastFailureTime + s.b.timeout;
      assert AllBefore(run[1..], s.b.lastFailureTime + s.b.timeout);
      NothingAdmittedWhileOpen(o, Next(o, s, a), run[1..]);
    }
  }

  /** How long the breaker is to refuse calls after a failure that opens it or renews its wait. */
  function WaitAfterFailure(o: Options, s: System): nat {
    match s.b.state
    case CLOSED => o.resetTimeoutMs
    case OPEN => Backoff(o, s.backoffs)
    case HALF_OPEN => Backoff(o, s.backoffs + 1)
  }

  /** A failed probe opens the breaker; in any other state a failure counts when the streak is at the threshold. */
  predicate FailureOpens(o: Options, s: System) { s.b.state.HALF_OPEN? || s.streak + 1 >= o.failureThreshold }

  /**
   Such a failure starts the wait at its own moment, in whatever state: a call before the end of
   the wait is refused with what is left of it, and from then on one is admitted if and only if
   probes are allowed at all. Any other failure changes no verdict.
   */
  lemma FailureStartsWait(o: Options, s: System, a: Action, later: int)
    requires Sound(o, s) && Enabled(s, a) && Counts(s, a) && !a.success && a.t <= later
    ensures var over := a.t + WaitAfterFailure(o, s);
            VerdictOf(o, Next(o, s, a).b, later) ==
            if !FailureOpens(o, s) then VerdictOf(o, s.b, later)
            else if later < over then Rejected(over - later)
            else if o.halfOpenMaxAttempts > 0 then Admitted else Rejected(0)
  {
    BackoffStep(o, s.backoffs);
  }

  /** So nothing is admitted until then, whatever outcomes come in. */
  lemma NothingAdmittedAfterFailure(o: Options, s: System, a: Action, run: seq<Action>)
    requires Sound(o, s) && Enabled(s, a) && Counts(s, a) && !a.success && FailureOpens(o, s)
    requires RunEnabled(o, Next(o, s, a), run) && AllBefore(run, a.t + WaitAfterFailure(o, s))
    ensures Run(o, Next(o, s, a), run).b.state.OPEN? && AdmittedIn(o, Next(o, s, a), run) == 0
  {
    BackoffStep(o, s.backoffs);
    NothingAdmittedWhileOpen(o, Next(o, s, a), run);
  }

  /** A success closes a half-open breaker, which then admits every call; in any other state it changes no verdict. */
  lemma SuccessVerdict(o: Options, s: System, a: Action, later: int)
    requires Sound(o, s) && Enabled(s, a) && Counts(s, a) && a.success
    ensures VerdictOf(o, Next(o, s, a).b, later) ==
            if s.b.state.HALF_OPEN? then Admitted else VerdictOf(o, s.b, later)
  {
  }

  /** Reading the state changes no verdict. */
  lemma ObservingIsHarmless(o: Options, b: Breaker, t: int, later: int)
    requires t <= later
    ensures VerdictOf(o, Observed(b, t), later) == VerdictOf(o, b, later)
  {
  }

  /** The wait an open breaker reports is the time until it is due; otherwise it reports none. */
  lemma WaitUntilDue(b: Breaker, now: int, d: nat)
    ensures RetryAfterMs(b, now) >= 0
    ensures if b.state.OPEN? then IsDue(b, now + d) <==> d >= RetryAfterMs(b, now) else RetryAfterMs(b, now) == 0
  {
  }

  predicate NoFailures(run: seq<Action>) { forall a | a in run :: a.Outcome? ==> a.success }

  lemma {:induction false} StaysOpen(o: Options, s: System, run: seq<Action>)
    requires s.b.state.OPEN? && RunEnabled(o, s, run) && NoFailures(run)
    requires AllBefore(run, s.b.lastFailureTime + s.b.timeout)
    ensures var b := Run(o, s, run).b;
            b.state.OPEN? && b.lastFailureTime == s.b.lastFailureTime && b.timeout == s.b.timeout
    ensures Run(o, s, run).clock == if run == [] then s.clock else run[|run| - 1].t
    decreases run
  {
    if run != [] {
      assert run[0].t < s.b.lastFailureTime + s.b.timeout;
      StaysOpen(o, Next(o, s, run[0]), run[1..]);
    }
  }

  /**
   The wait reported to a rejected call is exact. If no failure is recorded meanwhile, a call
   before that moment is rejected with what is left of the wait, and a call at it or later
   is admitted if and only if half-open probes are allowed at all.
   */
  lemma RetryAfterIsExact(o: Options, s: System, t: int, run: seq<Action>, later: int)
    requires s.b.state.OPEN? && t >= s.clock && VerdictOf(o, s.b, t).Rejected? && !IsDue(s.b, t)
    requires RunEnabled(o, Next(o, s, Call(t)), run) && NoFailures(run)
    requires AllBefore(run, t + VerdictOf(o, s.b, t).retryAfterMs)
    ensures var wait := VerdictOf(o, s.b, t).retryAfterMs;
            var b := Run(o, Next(o, s, Call(t)), run).b;
            && wait > 0
            && (later < t + wait ==> VerdictOf(o, b, later) == Rejected(t + wait - later))
            && (later >= t + wait ==> (VerdictOf(o, b, later).Admitted? <==> o.halfOpenMaxAttempts > 0))
  {
    StaysOpen(o, Next(o, s, Call(t)), run);
  }

  // ---------- While half open ----------

  predicate NoOutcomes(run: seq<Action>) { forall a | a in run :: !a.Outcome? }

  /** Only a recorded outcome leaves the half-open state; time never does, and the quota is not renewed. */
  lemma {:induction false} OnlyOutcomesLeaveHalfOpen(o: Options, s: System, run: seq<Action>)
    requires s.b.state.HALF_OPEN? && s.b.attempts <= o.halfOpenMaxAttempts && RunEnabled(o, s, run) && NoOutcomes(run)
    ensures Run(o, s, run).b.state.HALF_OPEN?
    ensures AdmittedIn(o, s, run) == Run(o, s, run).b.attempts - s.b.attempts
    ensures Run(o, s, run).b.attempts <= o.halfOpenMaxAttempts
    ensures forall later :: VerdictOf(o, Run(o, s, run).b, later) ==
              if s.b.attempts + AdmittedIn(o, s, run) < o.halfOpenMaxAttempts then Admitted else Rejected(0)
    decreases run
  {
    if run != [] {
      assert !run[0].Outcome?;
      OnlyOutcomesLeaveHalfOpen(o, Next(o, s, run[0]), run[1..]);
    }
  }

  /** A counted outcome always leaves it: a success closes the breaker, a failure opens it for a doubled timeout. */
  lemma OutcomeLeavesHalfOpen(o: Options, s: System, a: Action)
    requires Sound(o, s) && s.b.state.HALF_OPEN? && Enabled(s, a) && Counts(s, a)
    ensures var s' := Next(o, s, a);
            if a.success then s'.b.state.CLOSED? && s'.b.failures == 0 && s'.b.timeout == o.resetTimeoutMs
            else s'.b.state.OPEN? && s'.b.lastFailureTime == a.t && s'.b.timeout == Backoff(o, s.backoffs + 1)
  {
    BackoffStep(o, s.backoffs);
  }
}
