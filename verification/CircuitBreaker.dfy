/** The circuit breaker (internal/api/middleware/circuitbreaker.go:22-93). Requests run concurrently,
    but each of its three methods holds the mutex, so a run is a sequence of calls in any order. */
module CircuitBreaker {

  datatype CircuitState = Closed | Open | HalfOpen

  /** The fields of the breaker. `pending`: the half-open state has let its probe through. */
  datatype Breaker = Breaker(state: CircuitState, failures: nat, lastFailure: int, pending: bool)

  datatype Config = Config(threshold: int, timeout: int) {
    /** The number of failures that opens the breaker: a threshold below one acts as one. */
    function Limit(): nat { if threshold < 1 then 1 else threshold }
  }

  datatype Call = Allow(now: int) | Success | Failure(now: int)

  const FRESH := Breaker(Closed, 0, 0, false)

  /** Whether a call of allow is answered with true. */
  function Admits(c: Config, b: Breaker, now: int): bool {
    match b.state
    case Closed => true
    case Open => now - b.lastFailure > c.timeout
    case HalfOpen => !b.pending
  }

  function Step(c: Config, b: Breaker, call: Call): Breaker {
    match call
    case Allow(now) =>
      if !Admits(c, b, now) || b.state == Closed then b
      else if b.state == Open then b.(state := HalfOpen, pending := false)
      else b.(pending := true)
    case Success =>
      if b.state == HalfOpen then Breaker(Closed, 0, b.lastFailure, false) else b
    case Failure(now) =>
      var state := if b.state == HalfOpen || b.failures + 1 >= c.threshold then Open else b.state;
      Breaker(state, b.failures + 1, now, b.pending && b.state != HalfOpen)
  }

  /** Closed exactly below the limit, and a probe is out only in the half-open state. */
  predicate Consistent(c: Config, b: Breaker) {
    (b.state == Closed <==> b.failures < c.Limit()) && (b.pending ==> b.state == HalfOpen)
  }

  class CircuitBreaker {
    const config: Config
    var state: CircuitState
    var failures: nat
    var lastFailure: int
    var pending: bool

    constructor (threshold: int, timeout: int)
      ensures config == Config(threshold, timeout) && Now() == FRESH
    {
      config := Config(threshold, timeout);
      state, failures, lastFailure, pending := Closed, 0, 0, false;
    }

    ghost function Now(): Breaker
      reads this
    {
      Breaker(state, failures, lastFailure, pending)
    }

    method Allow(now: int) returns (ok: bool)
      modifies this
      ensures ok == Admits(config, old(Now()), now)
      ensures Now() == Step(config, old(Now()), Call.Allow(now))
      ensures if ok then state != Open else state != Closed && Now() == old(Now())
      ensures failures == old(failures) && lastFailure == old(lastFailure)
      ensures Consistent(config, old(Now())) ==> Consistent(config, Now())
    {
      match state
      case Closed =>
        return true;
      case Open =>
        if now - lastFailure > config.timeout {
          state := HalfOpen;
          pending := false;
          return true;
        }
        return false;
      case HalfOpen =>
        if !pending {
          pending := true;
          return true;
        }
        return false;
    }

    method RecordSuccess()
      modifies this
      ensures Now() == Step(config, old(Now()), Success)
      ensures state != HalfOpen && (Now() != old(Now()) ==> state == Closed && failures == 0)
      ensures lastFailure == old(lastFailure)
      ensures Consistent(config, old(Now())) ==> Consistent(config, Now())
    {
      if state == HalfOpen {
        state := Closed;
        failures := 0;
        pending := false;
      }
    }

    method RecordFailure(now: int)
      modifies this
      ensures Now() == Step(config, old(Now()), Failure(now))
      ensures state != HalfOpen && (state == Closed ==> old(state) == Closed && failures < config.Limit())
      ensures failures == old(failures) + 1 && lastFailure == now
      ensures Consistent(config, old(Now())) ==> Consistent(config, Now())
    {
      failures := failures + 1;
      lastFailure := now;
      if state == HalfOpen {
        state := Open;
        pending := false;
      } else if failures >= config.threshold {
        state := Open;
      }
    }
  }

  // ---------------------------------------------------------------- runs

  /** The breaker after a sequence of calls. */
  function After(c: Config, calls: seq<Call>): Breaker
    decreases |calls|
  {
    if calls == [] then FRESH else Step(c, After(c, calls[..|calls| - 1]), calls[|calls| - 1])
  }

  /** Call i is a request that is let through. */
  predicate Admitted(c: Config, calls: seq<Call>, i: nat)
    requires i < |calls|
  {
    calls[i].Allow? && Admits(c, After(c, calls[..i]), calls[i].now)
  }

  /** Call i is the success that closes the breaker. */
  predicate Closes(c: Config, calls: seq<Call>, i: nat)
    requires i < |calls|
  {
    calls[i].Success? && After(c, calls[..i]).state == HalfOpen
  }

  function FailureCount(calls: seq<Call>): nat {
    if calls == [] then 0
    else FailureCount(calls[..|calls| - 1]) + if calls[|calls| - 1].Failure? then 1 else 0
  }

  lemma StateAt(c: Config, calls: seq<Call>, i: nat)
    requires i < |calls|
    ensures After(c, calls[..i + 1]) == Step(c, After(c, calls[..i]), calls[i])
  {
    assert calls[..i + 1][..i] == calls[..i];
  }

  // ---------------------------------------------------------------- when it opens

  /** At every moment the breaker is closed exactly while it has counted fewer failures than its limit. */
  lemma {:induction false} ClosedBelowLimit(c: Config, calls: seq<Call>)
    ensures After(c, calls).state == Closed <==> After(c, calls).failures < c.Limit()
    decreases |calls|
  {
    if calls != [] {
      ClosedBelowLimit(c, calls[..|calls| - 1]);
    }
  }

  /** Nothing has closed the breaker since call `since`, which is the start or comes right after a closing. */
  ghost predicate LastClosed(c: Config, calls: seq<Call>, since: nat) {
    && since <= |calls|
    && (since > 0 ==> Closes(c, calls, since - 1))
    && (forall i :: since <= i < |calls| ==> !Closes(c, calls, i))
  }

  lemma {:induction false} LastClosedExists(c: Config, calls: seq<Call>) returns (since: nat)
    ensures LastClosed(c, calls, since)
    decreases |calls|
  {
    since := 0;
    if calls != [] {
      var n := |calls| - 1;
      if Closes(c, calls, n) {
        since := |calls|;
      } else {
        since := LastClosedExists(c, calls[..n]);
        forall i | 0 <= i < n ensures Closes(c, calls[..n], i) == Closes(c, calls, i) {
          assert calls[..n][..i] == calls[..i];
        }
      }
    }
  }

  /** What is counted: every failure since the breaker was last closed, in whatever state. */
  lemma {:induction false} CountsSinceClosed(c: Config, calls: seq<Call>, since: nat)
    requires LastClosed(c, calls, since)
    ensures After(c, calls).failures == FailureCount(calls[since..])
    decreases |calls|
  {
    if since == |calls| {
      if calls != [] {
        assert calls[..|calls| - 1] == calls[..since - 1];
      }
    } else {
      var init := calls[..|calls| - 1];
      assert LastClosed(c, init, since) by {
        forall i | 0 <= i < |init| ensures Closes(c, init, i) == Closes(c, calls, i) {
          assert init[..i] == calls[..i];
        }
      }
      CountsSinceClosed(c, init, since);
      assert calls[since..][..|calls[since..]| - 1] == init[since..];
      assert !Closes(c, calls, |calls| - 1);
    }
  }

  /** A call takes the breaker from closed to open exactly when it is the failure with which the
      failures since the last closing reach the limit; successes in between change nothing. */
  lemma OpensAtLimit(c: Config, calls: seq<Call>, call: Call, since: nat)
    requires LastClosed(c, calls, since) && After(c, calls).state == Closed
    ensures After(c, calls + [call]).state != Closed <==> call.Failure? && FailureCount(calls[since..]) + 1 == c.Limit()
  {
    CountsSinceClosed(c, calls, since);
    ClosedBelowLimit(c, calls);
    assert (calls + [call])[..|calls|] == calls;
  }

  /** The failures need not be consecutive, as the comment on the constructor says: with a
      threshold of two, a success between two failures does not keep the breaker closed. */
  lemma NotConsecutive(timeout: int, t0: int, t1: int)
    ensures After(Config(2, timeout), [Failure(t0), Success, Failure(t1)]).state == Open
  {
    var c := Config(2, timeout);
    var calls := [Failure(t0), Success, Failure(t1)];
    assert calls[..2] == [Failure(t0), Success] && calls[..2][..1] == [Failure(t0)];
    assert After(c, [Failure(t0)]).failures == 1;
    assert After(c, calls[..2]).failures == 1;
  }

  // ---------------------------------------------------------------- while it is open

  ghost predicate ClockMovesOn(calls: seq<Call>) {
    forall i, j :: 0 <= i < j < |calls| && !calls[i].Success? && !calls[j].Success? ==> calls[i].now <= calls[j].now
  }

  lemma {:induction false} LastFailureIsLatest(c: Config, calls: seq<Call>)
    requires ClockMovesOn(calls)
    ensures forall i :: 0 <= i < |calls| && calls[i].Failure? ==> calls[i].now <= After(c, calls).lastFailure
    ensures After(c, calls).state != Closed ==> exists i :: 0 <= i < |calls| && calls[i] == Failure(After(c, calls).lastFailure)
    decreases |calls|
  {
    if calls != [] {
      var init := calls[..|calls| - 1];
      LastFailureIsLatest(c, init);
      ClosedBelowLimit(c, init);
      if After(c, calls).state != Closed && !calls[|calls| - 1].Failure? {
        assert After(c, init).state != Closed;
        var i :| 0 <= i < |init| && init[i] == Failure(After(c, init).lastFailure);
        assert calls[i] == Failure(After(c, calls).lastFailure);
      }
    }
  }

  /** An open breaker lets a request through exactly when more than the timeout has passed since
      every failure so far. */
  lemma OpenAdmitsAfterTimeout(c: Config, calls: seq<Call>, now: int)
    requires ClockMovesOn(calls + [Allow(now)]) && After(c, calls).state == Open
    ensures Admits(c, After(c, calls), now)
      <==> forall i :: 0 <= i < |calls| && calls[i].Failure? ==> now - calls[i].now > c.timeout
  {
    forall i, j | 0 <= i < j < |calls| && !calls[i].Success? && !calls[j].Success? ensures calls[i].now <= calls[j].now {
      assert (calls + [Allow(now)])[i] == calls[i] && (calls + [Allow(now)])[j] == calls[j];
    }
    LastFailureIsLatest(c, calls);
    var k :| 0 <= k < |calls| && calls[k] == Failure(After(c, calls).lastFailure);
    assert calls[k].Failure?;
  }

  // ---------------------------------------------------------------- while it is half-open

  function AdmittedCount(c: Config, calls: seq<Call>, from: nat): nat
    requires from <= |calls|
    decreases |calls| - from
  {
    if from == |calls| then 0
    else (if Admitted(c, calls, from) then 1 else 0) + AdmittedCount(c, calls, from + 1)
  }

  /** Calls i to the end belong to one half-open episode; call i begins it. */
  ghost predicate Episode(c: Config, calls: seq<Call>, i: nat) {
    && i < |calls| && After(c, calls[..i]).state == Open
    && (forall m :: i < m <= |calls| ==> After(c, calls[..m]).state == HalfOpen)
  }

  /** Within a half-open episode at most two requests are let through: the one that began it and one more. */
  lemma EpisodeAdmitsTwo(c: Config, calls: seq<Call>, i: nat)
    requires Episode(c, calls, i)
    ensures Admitted(c, calls, i) && 1 <= AdmittedCount(c, calls, i) <= 2
  {
    StateAt(c, calls, i);
    EpisodeRest(c, calls, i + 1);
  }

  /** And so many may be: right after the request that began the episode the next one is let through,
      whenever it comes, and the one after that is not. */
  lemma EpisodeAdmitsSecond(c: Config, calls: seq<Call>, now: int, second: int, third: int)
    requires After(c, calls).state == Open && Admits(c, After(c, calls), now)
    ensures var more := calls + [Allow(now)] + [Allow(second)] + [Allow(third)];
      Admitted(c, more, |calls|) && Admitted(c, more, |calls| + 1) && !Admitted(c, more, |calls| + 2)
  {
    var n, more := |calls|, calls + [Allow(now)] + [Allow(second)] + [Allow(third)];
    assert more[..n] == calls && more[..n + 1] == calls + [Allow(now)] && more[..n + 2] == calls + [Allow(now)] + [Allow(second)];
    assert more[..n + 1][..n] == calls && more[..n + 2][..n + 1] == more[..n + 1];
  }

  lemma {:induction false} EpisodeRest(c: Config, calls: seq<Call>, i: nat)
    requires i <= |calls| && forall m :: i <= m <= |calls| ==> After(c, calls[..m]).state == HalfOpen
    ensures AdmittedCount(c, calls, i) <= if After(c, calls[..i]).pending then 0 else 1
    decreases |calls| - i
  {
    if i < |calls| {
      StateAt(c, calls, i);
      assert After(c, calls[..i + 1]).state == HalfOpen;
      EpisodeRest(c, calls, i + 1);
    }
  }

  /** Only a report ends the episode: if the two requests never report (their handlers panic), every
      later request is refused, however late it comes. */
  lemma {:induction false} NoReportNoRecovery(c: Config, calls: seq<Call>, later: seq<Call>)
    requires After(c, calls).state == HalfOpen && After(c, calls).pending
    requires forall i :: 0 <= i < |later| ==> later[i].Allow?
    ensures After(c, calls + later) == After(c, calls)
    ensures forall i :: |calls| <= i < |calls + later| ==> !Admitted(c, calls + later, i)
    decreases |later|
  {
    var all := calls + later;
    if later == [] {
      assert all == calls;
    } else {
      var init := later[..|later| - 1];
      NoReportNoRecovery(c, calls, init);
      assert all[..|all| - 1] == calls + init;
      forall i | |calls| <= i < |all| ensures !Admitted(c, all, i) {
        if i < |all| - 1 {
          assert all[..i] == (calls + init)[..i] && all[i] == (calls + init)[i];
          assert !Admitted(c, calls + init, i);
        } else {
          assert all[..i] == calls + init;
        }
      }
    }
  }

  /** The first report does: a success closes the breaker, so that every later request is admitted; a
      failure opens it, and a later request is admitted once the timeout has passed since it. */
  lemma FirstReportRecovers(c: Config, calls: seq<Call>, later: seq<Call>, report: Call, now: int)
    requires After(c, calls).state == HalfOpen && After(c, calls).pending
    requires (forall i :: 0 <= i < |later| ==> later[i].Allow?) && !report.Allow?
    ensures var b := After(c, calls + later + [report]);
      && b.state == (if report.Success? then Closed else Open)
      && (Admits(c, b, now) <==> report.Success? || now - report.now > c.timeout)
  {
    NoReportNoRecovery(c, calls, later);
    var all := calls + later + [report];
    assert all[..|all| - 1] == calls + later;
  }
}
