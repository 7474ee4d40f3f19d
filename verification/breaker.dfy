/**
 * The circuit breaker in front of the disk-usage call, used one call at a time: ask, call, report the outcome.
 * Times are integers on a clock that never goes back.
 */
module CircuitBreaker {

  const DEFAULT_MAX_FAILURES := 3
  const DEFAULT_COOLDOWN := 3_600_000_000_000

  datatype State = State(failures: nat, openedAt: int)

  /** The zero time; nothing looks at it while the breaker is closed. */
  const NEVER := 0

  const CLOSED := State(0, NEVER)

  datatype Limits = Limits(maxFailures: int, cooldown: int) {
    function Threshold(): (n: nat)
      ensures n > 0 && (maxFailures > 0 ==> n == maxFailures)
    {
      if maxFailures > 0 then maxFailures else DEFAULT_MAX_FAILURES
    }

    function Pause(): (d: nat)
      ensures d > 0 && (cooldown > 0 ==> d == cooldown)
    {
      if cooldown > 0 then cooldown else DEFAULT_COOLDOWN
    }
  }

  /** A guarded call: when it was asked for, when its outcome was reported had it been made, and the outcome. */
  datatype Call = Call(at: int, reportedAt: int, ok: bool)

  predicate Admits(s: State, now: int, l: Limits) {
    s.failures < l.Threshold() || now - s.openedAt > l.Pause()
  }

  function Reported(s: State, call: Call, l: Limits): State {
    if call.ok then CLOSED
    else State(s.failures + 1, if s.failures + 1 >= l.Threshold() then call.reportedAt else s.openedAt)
  }

  function Step(s: State, call: Call, l: Limits): State {
    if Admits(s, call.at, l) then Reported(s, call, l) else s
  }

  class Breaker {
    const maxFailures: int
    const cooldown: int
    var failures: nat
    var openedAt: int

    ghost function Abstract(): State
      reads this
    {
      State(failures, openedAt)
    }

    ghost function L(): Limits {
      Limits(maxFailures, cooldown)
    }

    constructor (maxFailures: int, cooldown: int)
      ensures Abstract() == CLOSED
      ensures L() == Limits(maxFailures, cooldown)
    {
      this.maxFailures, this.cooldown := maxFailures, cooldown;
      failures, openedAt := 0, NEVER;
    }

    method StateAt(now: int) returns (name: string)
      ensures name == if failures < L().Threshold() then "closed"
                      else if now - openedAt > L().Pause() then "half-open"
                      else "open"
    {
      var threshold := if maxFailures > 0 then maxFailures else DEFAULT_MAX_FAILURES;
      if failures < threshold {
        return "closed";
      }
      var pause := if cooldown > 0 then cooldown else DEFAULT_COOLDOWN;
      if now - openedAt > pause {
        return "half-open";
      }
      return "open";
    }

    method Allow(now: int) returns (ok: bool)
      ensures ok == Admits(Abstract(), now, L())
    {
      var state := StateAt(now);
      var open := "open";
      assert "closed"[0] != open[0] && "half-open"[0] != open[0];
      return state != open;
    }

    method OnSuccess()
      modifies this
      ensures Abstract() == CLOSED
    {
      failures := 0;
      openedAt := NEVER;
    }

    method OnFailure(now: int)
      modifies this
      ensures failures == old(failures) + 1
      ensures openedAt == if failures >= L().Threshold() then now else old(openedAt)
    {
      var threshold := if maxFailures > 0 then maxFailures else DEFAULT_MAX_FAILURES;
      failures := failures + 1;
      if failures == threshold {
        openedAt := now;
      } else if failures > threshold {
        openedAt := now;
      }
    }

    /** The disk check's use of the breaker. */
    method Guarded(call: Call) returns (made: bool)
      modifies this
      ensures made == Admits(old(Abstract()), call.at, L())
      ensures Abstract() == Step(old(Abstract()), call, L())
    {
      made := Allow(call.at);
      if !made {
        return;
      }
      if call.ok {
        OnSuccess();
      } else {
        OnFailure(call.reportedAt);
      }
    }
  }

  // ---- Every run of calls ----

  function Run(s: State, calls: seq<Call>, l: Limits): State {
    if calls == [] then s else Step(Run(s, calls[..|calls| - 1], l), calls[|calls| - 1], l)
  }

  /** The outcomes of the calls that were made. */
  function Made(s: State, calls: seq<Call>, l: Limits): seq<bool> {
    if calls == [] then []
    else
      var front, last := calls[..|calls| - 1], calls[|calls| - 1];
      Made(s, front, l) + if Admits(Run(s, front, l), last.at, l) then [last.ok] else []
  }

  function TrailingFailures(outcomes: seq<bool>): nat {
    if outcomes == [] || outcomes[|outcomes| - 1] then 0
    else 1 + TrailingFailures(outcomes[..|outcomes| - 1])
  }

  /** Each call is reported before the next is asked for, all from `start` on. */
  ghost predicate Serial(calls: seq<Call>, start: int) {
    && (forall i | 0 <= i < |calls| :: start <= calls[i].at <= calls[i].reportedAt)
    && (forall i, j | 0 <= i < j < |calls| :: calls[i].reportedAt <= calls[j].at)
  }

  /** The counter is the number of failed calls since the last successful one. */
  lemma {:induction false} CounterIsTrailingFailures(calls: seq<Call>, l: Limits)
    ensures Run(CLOSED, calls, l).failures == TrailingFailures(Made(CLOSED, calls, l))
  {
    if calls != [] {
      var front, last := calls[..|calls| - 1], calls[|calls| - 1];
      CounterIsTrailingFailures(front, l);
      if Admits(Run(CLOSED, front, l), last.at, l) {
        var made := Made(CLOSED, front, l);
        assert (made + [last.ok])[..|made|] == made;
      } else {
        assert Made(CLOSED, calls, l) == Made(CLOSED, front, l);
      }
    }
  }

  /** When the last call that was made was reported; `NEVER` if none was. */
  function LastReported(calls: seq<Call>, l: Limits): int {
    if calls == [] then NEVER
    else
      var front, last := calls[..|calls| - 1], calls[|calls| - 1];
      if Admits(Run(CLOSED, front, l), last.at, l) then last.reportedAt else LastReported(front, l)
  }

  /** An open breaker has been open since then. */
  lemma {:induction false} OpenSinceLastReport(calls: seq<Call>, l: Limits)
    requires Run(CLOSED, calls, l).failures >= l.Threshold()
    ensures Run(CLOSED, calls, l).openedAt == LastReported(calls, l)
  {
    var front, last := calls[..|calls| - 1], calls[|calls| - 1];
    if !Admits(Run(CLOSED, front, l), last.at, l) {
      OpenSinceLastReport(front, l);
    }
  }

  /**
   * So a call is refused exactly when the last calls made, as many as the threshold says, all failed and the pause
   * since the last of them was reported is not over.
   */
  lemma RefusedExactlyWhenOpen(calls: seq<Call>, now: int, l: Limits)
    ensures !Admits(Run(CLOSED, calls, l), now, l)
       <==> TrailingFailures(Made(CLOSED, calls, l)) >= l.Threshold() && now - LastReported(calls, l) <= l.Pause()
  {
    CounterIsTrailingFailures(calls, l);
    if Run(CLOSED, calls, l).failures >= l.Threshold() {
      OpenSinceLastReport(calls, l);
    }
  }

  lemma SerialFront(calls: seq<Call>, start: int)
    requires Serial(calls, start) && calls != []
    ensures Serial(calls[..|calls| - 1], start)
  {
  }

  /** Another pause after the first `k`. */
  lemma OnePauseMore(start: int, k: nat, pause: nat, since: int, at: int)
    requires since >= start + k * pause && at - since > pause
    ensures at > start + (k + 1) * pause
  {
  }

  /**
   * From the moment the breaker opens, as long as every trial fails, it stays open and its clock has moved on by
   * more than one pause per trial.
   */
  lemma {:induction false} EachTrialCostsAPause(s: State, calls: seq<Call>, l: Limits)
    requires s.failures >= l.Threshold() && Serial(calls, s.openedAt)
    requires forall ok | ok in Made(s, calls, l) :: !ok
    ensures var t, k := Run(s, calls, l), |Made(s, calls, l)|;
            && t.failures == s.failures + k
            && t.openedAt >= s.openedAt + k * l.Pause()
            && (k > 0 ==> t.openedAt > s.openedAt + k * l.Pause())
            && (calls != [] ==> t.openedAt <= calls[|calls| - 1].reportedAt)
  {
    if calls != [] {
      var front, last := calls[..|calls| - 1], calls[|calls| - 1];
      SerialFront(calls, s.openedAt);
      assert forall ok | ok in Made(s, front, l) :: ok in Made(s, calls, l);
      EachTrialCostsAPause(s, front, l);
      var t, k := Run(s, front, l), |Made(s, front, l)|;
      if Admits(t, last.at, l) {
        assert Made(s, calls, l)[k] == last.ok && last.ok in Made(s, calls, l);
        assert Run(s, calls, l) == State(t.failures + 1, last.reportedAt);
        assert |Made(s, calls, l)| == k + 1;
        OnePauseMore(s.openedAt, k, l.Pause(), t.openedAt, last.at);
      }
    }
  }

  /**
   * The k-th failing trial after opening is admitted strictly later than k pauses after opening: calls from then
   * on that are all asked for within `span` of the opening hold at most span / pause trials.
   */
  lemma TrialsAreSpaced(s: State, calls: seq<Call>, span: nat, l: Limits)
    requires s.failures >= l.Threshold() && Serial(calls, s.openedAt)
    requires forall ok | ok in Made(s, calls, l) :: !ok
    requires forall i | 0 <= i < |calls| :: calls[i].at <= s.openedAt + span
    ensures |Made(s, calls, l)| > 0 ==> |Made(s, calls, l)| * l.Pause() < span
    ensures |Made(s, calls, l)| <= span / l.Pause()
  {
    AskedWithin(s, calls, span, l);
    AtMostQuotient(|Made(s, calls, l)|, l.Pause(), span);
  }

  lemma {:induction false} AskedWithin(s: State, calls: seq<Call>, span: nat, l: Limits)
    requires s.failures >= l.Threshold() && Serial(calls, s.openedAt)
    requires forall ok | ok in Made(s, calls, l) :: !ok
    requires forall i | 0 <= i < |calls| :: calls[i].at <= s.openedAt + span
    ensures |Made(s, calls, l)| > 0 ==> |Made(s, calls, l)| * l.Pause() < span
  {
    if calls != [] {
      var front, last := calls[..|calls| - 1], calls[|calls| - 1];
      SerialFront(calls, s.openedAt);
      assert forall ok | ok in Made(s, front, l) :: ok in Made(s, calls, l);
      AskedWithin(s, front, span, l);
      EachTrialCostsAPause(s, front, l);
      if Admits(Run(s, front, l), last.at, l) {
        OnePauseMore(s.openedAt, |Made(s, front, l)|, l.Pause(), Run(s, front, l).openedAt, last.at);
      }
    }
  }

  lemma AtMostQuotient(k: nat, d: nat, span: nat)
    requires d > 0 && k * d <= span
    ensures k <= span / d
  {
    var q := span / d;
    assert span < (q + 1) * d;
    if q < k {
      MorePauses(q + 1, k, d);
    }
  }

  lemma MorePauses(j: nat, k: nat, d: nat)
    requires j <= k
    ensures j * d <= k * d
  {
  }
}
