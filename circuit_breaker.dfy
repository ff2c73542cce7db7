/**
 * The circuit breaker: a three-state machine (Closed, Open, HalfOpen)
 * driven by the outcomes of the calls it protects. Time is Unix seconds,
 * passed in: `now` is the clock read when the call is admitted and
 * `doneAt` the clock read once the protected operation has finished. The
 * operation is represented by the outcome it produces when the breaker
 * lets it run.
 */
module Breaker {
  import opened Wrappers

  const U64Max: nat := 0xFFFF_FFFF_FFFF_FFFF

  datatype CircuitState = Closed | Open | HalfOpen

  datatype BreakerConfig = BreakerConfig(failureThreshold: nat, successThreshold: nat, timeout: nat)

  /** `CircuitBreakerConfig::default`: open after 5 failures, close after 2 successes, retry after 60 s. */
  function DefaultConfig(): (c: BreakerConfig)
    ensures c.failureThreshold == 5 && c.successThreshold == 2 && c.timeout == 60
  {
    BreakerConfig(5, 2, 60)
  }

  datatype BreakerError<E> = Rejected(name: string) | Inner(error: E)

  /** The state of a breaker together with its statistics counters. */
  datatype Snapshot = Snapshot(
    state: CircuitState,
    consecutiveFailures: nat,
    consecutiveSuccesses: nat,
    totalCalls: nat,
    totalFailures: nat,
    lastFailureTime: nat)

  /** A new breaker: Closed, all counters zero, no failure recorded. */
  function Fresh(): Snapshot {
    Snapshot(Closed, 0, 0, 0, 0, 0)
  }

  /** What every reachable snapshot satisfies. */
  predicate Inv(s: Snapshot) {
    && (s.consecutiveFailures == 0 || s.consecutiveSuccesses == 0)
    && s.consecutiveFailures <= s.totalFailures <= s.totalCalls
    && s.consecutiveSuccesses <= s.totalCalls - s.totalFailures
    && (s.state == Open ==> s.consecutiveFailures >= 1 && s.consecutiveSuccesses == 0)
  }

  /**
   * `seconds_since_last_failure`: `u64::MAX` when no failure time is
   * recorded (stored as 0), otherwise the elapsed seconds, never negative.
   */
  function SecondsSinceLastFailure(lastFailure: nat, now: nat): (r: nat)
    ensures lastFailure == 0 ==> r == U64Max
    ensures lastFailure > 0 ==> r <= now && (now >= lastFailure ==> lastFailure + r == now)
    ensures lastFailure > 0 && now < lastFailure ==> r == 0
  {
    if lastFailure == 0 then U64Max
    else if now >= lastFailure then now - lastFailure
    else 0
  }

  /**
   * The breaker refuses the call: Open and the timeout has not yet
   * elapsed since the last failure. A clock behind the failure time counts
   * as no time passed; a breaker with no failure time on record counts as
   * having waited `u64::MAX` seconds.
   */
  function Rejects(s: Snapshot, cfg: BreakerConfig, now: nat): (b: bool)
    ensures b ==> s.state == Open
    ensures s.state == Open && s.lastFailureTime > 0 && now >= s.lastFailureTime ==>
      (b <==> now < s.lastFailureTime + cfg.timeout)
    ensures s.state == Open && s.lastFailureTime > now ==> (b <==> cfg.timeout > 0)
    ensures s.state == Open && s.lastFailureTime == 0 ==> (b <==> cfg.timeout > U64Max)
  {
    s.state == Open && SecondsSinceLastFailure(s.lastFailureTime, now) < cfg.timeout
  }

  /** `record_success`. */
  function RecordSuccess(s: Snapshot): (t: Snapshot)
    ensures t.totalCalls == s.totalCalls + 1 && t.totalFailures == s.totalFailures
    ensures t.consecutiveSuccesses == s.consecutiveSuccesses + 1 && t.consecutiveFailures == 0
    ensures t.state == s.state && t.lastFailureTime == s.lastFailureTime
  {
    s.(totalCalls := s.totalCalls + 1,
       consecutiveSuccesses := s.consecutiveSuccesses + 1,
       consecutiveFailures := 0)
  }

  /** `record_failure`: the failure time is the clock read when it runs, `doneAt`. */
  function RecordFailure(s: Snapshot, doneAt: nat): (t: Snapshot)
    ensures t.totalCalls == s.totalCalls + 1 && t.totalFailures == s.totalFailures + 1
    ensures t.consecutiveFailures == s.consecutiveFailures + 1 && t.consecutiveSuccesses == 0
    ensures t.state == s.state && t.lastFailureTime == doneAt
  {
    s.(totalCalls := s.totalCalls + 1,
       totalFailures := s.totalFailures + 1,
       consecutiveFailures := s.consecutiveFailures + 1,
       consecutiveSuccesses := 0,
       lastFailureTime := doneAt)
  }

  /**
   * The snapshot after a call the breaker let through: an Open breaker
   * whose timeout elapsed moves to HalfOpen first; then the outcome is
   * recorded, a failure at `doneAt`, and the transition rules applied:
   * a failure opens a HalfOpen breaker and a Closed one whose streak
   * reaches the failure threshold; a success closes a HalfOpen breaker
   * whose streak reaches the success threshold.
   */
  function AfterCall(s: Snapshot, cfg: BreakerConfig, succeeded: bool, now: nat, doneAt: nat): (t: Snapshot)
    requires !Rejects(s, cfg, now)
    ensures t.totalCalls == s.totalCalls + 1
    ensures succeeded ==> && t.consecutiveSuccesses == s.consecutiveSuccesses + 1 && t.consecutiveFailures == 0
                          && t.totalFailures == s.totalFailures && t.lastFailureTime == s.lastFailureTime
    ensures !succeeded ==> && t.consecutiveFailures == s.consecutiveFailures + 1 && t.consecutiveSuccesses == 0
                           && t.totalFailures == s.totalFailures + 1 && t.lastFailureTime == doneAt
    ensures t.state == Open <==> !succeeded && (s.state != Closed || t.consecutiveFailures >= cfg.failureThreshold)
    ensures t.state == Closed <==>
      || (s.state == Closed && (succeeded || t.consecutiveFailures < cfg.failureThreshold))
      || (s.state != Closed && succeeded && t.consecutiveSuccesses >= cfg.successThreshold)
  {
    var current := if s.state == Open then HalfOpen else s.state;
    if succeeded then
      var t := RecordSuccess(s).(state := current);
      if current == HalfOpen && t.consecutiveSuccesses >= cfg.successThreshold then t.(state := Closed) else t
    else
      var t := RecordFailure(s, doneAt).(state := current);
      if current == HalfOpen then t.(state := Open)
      else if current == Closed && t.consecutiveFailures >= cfg.failureThreshold then t.(state := Open)
      else t
  }

  /**
   * One attempted call, admitted or refused at time `at`, whose operation
   * would succeed or fail and would finish at time `doneAt`.
   */
  datatype Attempt = Attempt(succeeds: bool, at: nat, doneAt: nat)

  /** What an attempt does to the snapshot: nothing when refused, one recorded call otherwise. */
  function Step(s: Snapshot, cfg: BreakerConfig, a: Attempt): (t: Snapshot)
    ensures Rejects(s, cfg, a.at) ==> t == s
    ensures !Rejects(s, cfg, a.at) ==> && t.totalCalls == s.totalCalls + 1
                                       && (a.succeeds <==> t.totalFailures == s.totalFailures)
                                       && (!a.succeeds ==> t.lastFailureTime == a.doneAt)
  {
    if Rejects(s, cfg, a.at) then s else AfterCall(s, cfg, a.succeeds, a.at, a.doneAt)
  }

  /** A sequence of attempts, one after another. */
  function Run(s: Snapshot, cfg: BreakerConfig, attempts: seq<Attempt>): Snapshot
    decreases |attempts|
  {
    if attempts == [] then s else Run(Step(s, cfg, attempts[0]), cfg, attempts[1..])
  }

  function Failures(n: nat, at: nat): (a: seq<Attempt>)
    ensures |a| == n && forall i :: 0 <= i < n ==> a[i] == Attempt(false, at, at)
  {
    seq(n, _ => Attempt(false, at, at))
  }

  function Successes(n: nat, at: nat): (a: seq<Attempt>)
    ensures |a| == n && forall i :: 0 <= i < n ==> a[i] == Attempt(true, at, at)
  {
    seq(n, _ => Attempt(true, at, at))
  }

  /** `failure_rate`: total failures over total calls, 0 before any call. */
  function FailureRate(s: Snapshot): (r: real)
    requires Inv(s)
    ensures 0.0 <= r <= 1.0
    ensures s.totalCalls == 0 ==> r == 0.0
    ensures s.totalCalls > 0 ==> r * s.totalCalls as real == s.totalFailures as real
  {
    if s.totalCalls == 0 then 0.0 else
      RatioBounds(s.totalFailures as real, s.totalCalls as real);
      s.totalFailures as real / s.totalCalls as real
  }

  lemma RatioBounds(part: real, whole: real)
    requires 0.0 <= part <= whole && whole > 0.0
    ensures 0.0 <= part / whole <= 1.0 && (part / whole) * whole == part
  {
    var q := part / whole;
    assert q * whole == part;
  }

  // ---------------------------------------------------------------------
  // Properties of the state machine
  // ---------------------------------------------------------------------

  /** Every call, admitted or refused, keeps the invariant. */
  lemma StepKeepsInv(s: Snapshot, cfg: BreakerConfig, a: Attempt)
    requires Inv(s)
    ensures Inv(Step(s, cfg, a))
  {
  }

  lemma {:induction false} RunKeepsInv(s: Snapshot, cfg: BreakerConfig, attempts: seq<Attempt>)
    requires Inv(s)
    ensures Inv(Run(s, cfg, attempts))
    decreases |attempts|
  {
    if attempts != [] {
      StepKeepsInv(s, cfg, attempts[0]);
      RunKeepsInv(Step(s, cfg, attempts[0]), cfg, attempts[1..]);
    }
  }

  /** A refused call changes nothing, and only an Open breaker refuses. */
  lemma RefusalChangesNothing(s: Snapshot, cfg: BreakerConfig, a: Attempt)
    ensures Rejects(s, cfg, a.at) ==> Step(s, cfg, a) == s
    ensures s.state != Open ==> !Rejects(s, cfg, a.at)
    ensures !Rejects(s, cfg, a.at) ==> Step(s, cfg, a).totalCalls == s.totalCalls + 1
  {
  }

  /**
   * An Open breaker refuses every call until `timeout` seconds have passed
   * since the last failure; a clock that went back behind the failure time
   * counts as no time passed.
   */
  lemma OpenRefusesDuringTimeout(s: Snapshot, cfg: BreakerConfig, now: nat)
    requires s.state == Open && s.lastFailureTime > 0
    ensures now < s.lastFailureTime ==> (Rejects(s, cfg, now) <==> cfg.timeout > 0)
    ensures now >= s.lastFailureTime ==> (Rejects(s, cfg, now) <==> now < s.lastFailureTime + cfg.timeout)
  {
  }

  /** An Open breaker with no failure time on record lets the next call through. */
  lemma OpenWithoutFailureTimeAdmits(s: Snapshot, cfg: BreakerConfig, now: nat)
    requires s.state == Open && s.lastFailureTime == 0 && cfg.timeout <= U64Max
    ensures !Rejects(s, cfg, now)
  {
  }

  /** A success clears the failure streak and never opens the breaker. */
  lemma SuccessClearsFailureStreak(s: Snapshot, cfg: BreakerConfig, now: nat, doneAt: nat)
    requires !Rejects(s, cfg, now)
    ensures AfterCall(s, cfg, true, now, doneAt).consecutiveFailures == 0
    ensures AfterCall(s, cfg, true, now, doneAt).state != Open
  {
  }

  /** Any failure in HalfOpen, or in Open once the timeout elapsed, opens the breaker again. */
  lemma ProbeFailureReopens(s: Snapshot, cfg: BreakerConfig, now: nat, doneAt: nat)
    requires s.state != Closed && !Rejects(s, cfg, now)
    ensures AfterCall(s, cfg, false, now, doneAt).state == Open
    ensures AfterCall(s, cfg, false, now, doneAt).lastFailureTime == doneAt
  {
  }

  /**
   * From Closed with a failure streak below the threshold, consecutive
   * failures keep the breaker Closed and it opens exactly when the
   * streak reaches `failureThreshold`.
   */
  lemma {:induction false} FailuresOpenAtThreshold(s: Snapshot, cfg: BreakerConfig, n: nat, at: nat)
    requires Inv(s) && s.state == Closed
    requires s.consecutiveFailures + n <= cfg.failureThreshold
    requires s.consecutiveFailures < cfg.failureThreshold
    ensures var r := Run(s, cfg, Failures(n, at));
      && r.totalFailures == s.totalFailures + n
      && (n > 0 ==> r.consecutiveFailures == s.consecutiveFailures + n)
      && (r.state == Open <==> s.consecutiveFailures + n == cfg.failureThreshold)
      && (r.state != Open ==> r.state == Closed)
    decreases n
  {
    var fs := Failures(n, at);
    if n > 0 {
      var t := Step(s, cfg, fs[0]);
      assert t == AfterCall(s, cfg, false, at, at);
      assert fs[1..] == Failures(n - 1, at);
      if s.consecutiveFailures + 1 == cfg.failureThreshold {
        assert n == 1;
        assert fs[1..] == [];
      } else {
        FailuresOpenAtThreshold(t, cfg, n - 1, at);
      }
    }
  }

  /**
   * From HalfOpen without a success streak, consecutive successes keep it
   * HalfOpen and close it exactly when the streak reaches
   * `successThreshold`.
   */
  lemma {:induction false} SuccessesCloseAtThreshold(s: Snapshot, cfg: BreakerConfig, n: nat, at: nat)
    requires Inv(s) && s.state == HalfOpen
    requires s.consecutiveSuccesses + n <= cfg.successThreshold
    requires s.consecutiveSuccesses < cfg.successThreshold
    ensures var r := Run(s, cfg, Successes(n, at));
      && r.consecutiveFailures == (if n > 0 then 0 else s.consecutiveFailures)
      && r.totalCalls == s.totalCalls + n
      && (r.state == Closed <==> s.consecutiveSuccesses + n == cfg.successThreshold)
      && (r.state != Closed ==> r.state == HalfOpen)
    decreases n
  {
    var ss := Successes(n, at);
    if n > 0 {
      var t := Step(s, cfg, ss[0]);
      assert t == AfterCall(s, cfg, true, at, at);
      assert ss[1..] == Successes(n - 1, at);
      if s.consecutiveSuccesses + 1 == cfg.successThreshold {
        assert n == 1;
        assert ss[1..] == [];
      } else {
        SuccessesCloseAtThreshold(t, cfg, n - 1, at);
      }
    }
  }

  /** Once the timeout has elapsed, an Open breaker lets a probe through in HalfOpen. */
  lemma TimeoutAdmitsProbe(s: Snapshot, cfg: BreakerConfig, now: nat, doneAt: nat)
    requires Inv(s) && s.state == Open && s.lastFailureTime > 0
    requires now >= s.lastFailureTime + cfg.timeout
    ensures !Rejects(s, cfg, now)
    ensures cfg.successThreshold > 1 ==> AfterCall(s, cfg, true, now, doneAt).state == HalfOpen
    ensures cfg.successThreshold <= 1 ==> AfterCall(s, cfg, true, now, doneAt).state == Closed
  {
  }

  /**
   * The timeout of a breaker opened by a failure runs from the moment the
   * failed operation finished, not from the moment it was admitted: a
   * call admitted at `at` that fails at `doneAt` and reaches the failure
   * threshold keeps the breaker refusing until `doneAt + timeout`.
   */
  lemma TimeoutRunsFromCompletion(s: Snapshot, cfg: BreakerConfig, at: nat, doneAt: nat, later: nat)
    requires s.state == Closed && s.consecutiveFailures + 1 >= cfg.failureThreshold
    requires 0 < doneAt <= later
    ensures var t := Step(s, cfg, Attempt(false, at, doneAt));
      && t.state == Open && t.lastFailureTime == doneAt
      && (Rejects(t, cfg, later) <==> later < doneAt + cfg.timeout)
  {
  }

  /** The scenario of the "closed to open" unit test: three failures with threshold three open a new breaker. */
  lemma ThreeFailuresOpen(at: nat)
    ensures var r := Run(Fresh(), BreakerConfig(3, 2, 60), Failures(3, at));
      r.state == Open && r.totalFailures == 3
  {
    FailuresOpenAtThreshold(Fresh(), BreakerConfig(3, 2, 60), 3, at);
  }

  /** The figures of the statistics unit test: two failures in five calls is a rate of 0.4. */
  lemma FailureRateExample()
    ensures FailureRate(Snapshot(Closed, 2, 0, 5, 2, 7)) == 0.4
  {
  }

  /** The breaker object. */
  class CircuitBreaker {
    const name: string
    const config: BreakerConfig
    var state: CircuitState
    var consecutiveFailures: nat
    var consecutiveSuccesses: nat
    var totalCalls: nat
    var totalFailures: nat
    var lastFailureTime: nat

    function Snap(): Snapshot
      reads this
    {
      Snapshot(state, consecutiveFailures, consecutiveSuccesses, totalCalls, totalFailures, lastFailureTime)
    }

    ghost predicate Valid()
      reads this
    {
      Inv(Snap())
    }

    /** `CircuitBreaker::with_config`: Closed, counters zero. */
    constructor WithConfig(name: string, config: BreakerConfig)
      ensures Valid() && this.name == name && this.config == config && Snap() == Fresh()
    {
      this.name := name;
      this.config := config;
      state := Closed;
      consecutiveFailures, consecutiveSuccesses, totalCalls, totalFailures, lastFailureTime := 0, 0, 0, 0, 0;
    }

    /** `CircuitBreaker::new`: the default configuration. */
    constructor (name: string)
      ensures Valid() && this.name == name && config == DefaultConfig() && Snap() == Fresh()
    {
      this.name := name;
      config := DefaultConfig();
      state := Closed;
      consecutiveFailures, consecutiveSuccesses, totalCalls, totalFailures, lastFailureTime := 0, 0, 0, 0, 0;
    }

    /**
     * `call`: refused with `Rejected(name)` while Open within the timeout,
     * leaving everything as it was; otherwise the outcome `op` of the
     * protected operation is recorded (a failure with the time `doneAt`,
     * read after the operation finished), the state updated, and the
     * outcome returned, its error wrapped as `Inner`.
     */
    method Call<T, E>(op: Result<T, E>, now: nat, doneAt: nat) returns (r: Result<T, BreakerError<E>>)
      requires Valid()
      modifies this
      ensures Valid()
      ensures Snap() == Step(old(Snap()), config, Attempt(op.Ok?, now, doneAt))
      ensures Rejects(old(Snap()), config, now) ==> r == Err(Rejected(name))
      ensures !Rejects(old(Snap()), config, now) ==>
        r == match op { case Ok(v) => Ok(v) case Err(e) => Err(Inner(e)) }
    {
      var current := state;
      if state == Open {
        var elapsed := SecondsSinceLastFailure(lastFailureTime, now);
        if elapsed >= config.timeout {
          state := HalfOpen;
          current := HalfOpen;
        } else {
          return Err(Rejected(name));
        }
      }
      assert !Rejects(old(Snap()), config, now);
      match op {
        case Ok(v) =>
          totalCalls := totalCalls + 1;
          consecutiveSuccesses := consecutiveSuccesses + 1;
          consecutiveFailures := 0;
          if current == HalfOpen && consecutiveSuccesses >= config.successThreshold {
            if state == HalfOpen {
              state := Closed;
            }
          }
          assert Snap() == AfterCall(old(Snap()), config, true, now, doneAt);
          r := Ok(v);
        case Err(e) =>
          totalCalls := totalCalls + 1;
          totalFailures := totalFailures + 1;
          consecutiveFailures := consecutiveFailures + 1;
          consecutiveSuccesses := 0;
          lastFailureTime := doneAt;
          match state {
            case Closed =>
              if consecutiveFailures >= config.failureThreshold {
                state := Open;
              }
            case HalfOpen =>
              state := Open;
            case Open =>
          }
          assert Snap() == AfterCall(old(Snap()), config, false, now, doneAt);
          r := Err(Inner(e));
      }
      StepKeepsInv(old(Snap()), config, Attempt(op.Ok?, now, doneAt));
    }

    /** `reset`: back to Closed; the statistics are kept. */
    method Reset()
      requires Valid()
      modifies this
      ensures Valid()
      ensures state == Closed
      ensures Snap() == old(Snap()).(state := Closed)
    {
      state := Closed;
    }

    /** `failure_rate`. */
    method Rate() returns (r: real)
      requires Valid()
      ensures 0.0 <= r <= 1.0
      ensures totalCalls == 0 ==> r == 0.0
      ensures totalCalls > 0 ==> r * totalCalls as real == totalFailures as real
    {
      r := FailureRate(Snap());
    }
  }

  /**
   * After a manual reset the failure streak is kept, so a breaker reset
   * while its streak is at the threshold opens again on the next failure.
   */
  lemma ResetKeepsFailureStreak(s: Snapshot, cfg: BreakerConfig, now: nat, doneAt: nat)
    requires Inv(s) && s.state == Open && s.consecutiveFailures + 1 >= cfg.failureThreshold
    ensures AfterCall(s.(state := Closed), cfg, false, now, doneAt).state == Open
  {
  }
}
