/**
 The step orchestrator of internal/orch/plan.go and the outcome classifier of internal/sites/activity.go.
 Steps act on an abstract world `W`. A step may fail or panic, in either direction; the context may be
 cancelled at any moment, seen here as the number of the first poll that finds it cancelled.
 */
module PlanRunner {
  import opened Wrappers

  datatype Status = Pending | Running | Succeeded | Failed | RolledBack | Skipped

  /** How a call into a step ends: normally, perhaps with an error, or by panicking. */
  datatype Call<W> = Returned(world: W, error: Option<string>) | Panicked(world: W, reason: string)

  datatype Step<!W> = Step(name: string, apply: W -> Call<W>, rollback: W -> Call<W>)

  datatype StepResult = StepResult(name: string, status: Status, error: Option<string>)

  datatype Result = Result(planName: string, steps: seq<StepResult>, rolledBack: bool, finalError: Option<string>)

  /** What happens during a run, in order: calls into the steps (by index) and callbacks fired. */
  datatype Event =
    | Applied(index: nat)
    | Undone(index: nat)
    | OnStepStart(step: StepResult)
    | OnStepDone(step: StepResult)
    | OnPlanDone(result: Result)

  /** A panic surfaces as an error. */
  function Recovered<W>(call: Call<W>, prefix: string): (r: Call<W>)
    ensures r.Returned? && r.world == call.world
    ensures r.error == None <==> call.Returned? && call.error == None
  {
    match call
    case Returned(_, _) => call
    case Panicked(w, reason) => Returned(w, Some(prefix + reason))
  }

  function SafeApply<W>(s: Step<W>, w: W): Call<W> {
    Recovered(s.apply(w), "step panicked: ")
  }

  function SafeRollback<W>(s: Step<W>, w: W): Call<W> {
    Recovered(s.rollback(w), "rollback panicked: ")
  }

  // ---- The forward pass ----

  /** Where the forward pass ends, and the world it leaves. Poll number |steps| is the one after the loop. */
  datatype End<W> =
    | Completed(world: W)
    | FailedAt(at: nat, error: string, world: W)
    | CancelledAt(at: nat, world: W)

  function Forward<W>(steps: seq<Step<W>>, i: nat, w: W, cancelAt: nat): (e: End<W>)
    requires i <= |steps|
    ensures e.FailedAt? ==> i <= e.at < |steps| && e.at < cancelAt
    ensures e.CancelledAt? ==> i <= e.at <= |steps| && cancelAt <= e.at
    decreases |steps| - i
  {
    if cancelAt <= i then CancelledAt(i, w)
    else if i == |steps| then Completed(w)
    else
      var c := SafeApply(steps[i], w);
      match c.error
      case None => Forward(steps, i + 1, c.world, cancelAt)
      case Some(e) => FailedAt(i, e, c.world)
  }

  /** How many steps the forward pass completed. */
  function Done<W>(steps: seq<Step<W>>, e: End<W>): nat {
    if e.Completed? then |steps| else e.at
  }

  function Started(name: string): StepResult { StepResult(name, Running, None) }

  function Finished(name: string): StepResult { StepResult(name, Succeeded, None) }

  /** The events of the first `k` steps when all of them succeed. */
  function ForwardLog<W>(steps: seq<Step<W>>, k: nat): seq<Event>
    requires k <= |steps|
  {
    if k == 0 then [] else
    ForwardLog(steps, k - 1)
    + [OnStepStart(Started(steps[k - 1].name)), Applied(k - 1), OnStepDone(Finished(steps[k - 1].name))]
  }

  // ---- The backward pass ----

  /** The world after rolling back the succeeded steps among indices lo..hi, highest first. */
  function Undo<W>(steps: seq<Step<W>>, before: seq<StepResult>, lo: nat, hi: nat, w: W): W
    requires lo <= hi <= |steps| == |before|
    decreases hi - lo
  {
    if lo == hi then w
    else if before[hi - 1].status != Succeeded then Undo(steps, before, lo, hi - 1, w)
    else Undo(steps, before, lo, hi - 1, SafeRollback(steps[hi - 1], w).world)
  }

  /** What rolling step `j` back does to its row; `w` is the world the backward pass started from at `hi`. */
  function UndoneRow<W>(steps: seq<Step<W>>, before: seq<StepResult>, j: nat, hi: nat, w: W): StepResult
    requires j < hi <= |steps| == |before|
  {
    StepResult(before[j].name, RolledBack, SafeRollback(steps[j], Undo(steps, before, j + 1, hi, w)).error)
  }

  function UndoLog<W>(steps: seq<Step<W>>, before: seq<StepResult>, lo: nat, hi: nat, w: W): seq<Event>
    requires lo <= hi <= |steps| == |before|
    decreases hi - lo
  {
    if lo == hi then []
    else
      var higher := UndoLog(steps, before, lo + 1, hi, w);
      if before[lo].status != Succeeded then higher
      else higher + [Undone(lo), OnStepDone(UndoneRow(steps, before, lo, hi, w))]
  }

  lemma {:induction false} UndoOneMore<W>(steps: seq<Step<W>>, before: seq<StepResult>, lo: nat, hi: nat, w: W)
    requires lo < hi <= |steps| == |before|
    ensures var mid := Undo(steps, before, lo + 1, hi, w);
            Undo(steps, before, lo, hi, w)
            == if before[lo].status != Succeeded then mid else SafeRollback(steps[lo], mid).world
    decreases hi - lo
  {
    if lo + 1 < hi {
      var w' := if before[hi - 1].status != Succeeded then w else SafeRollback(steps[hi - 1], w).world;
      UndoOneMore(steps, before, lo, hi - 1, w');
    }
  }

  /** Rolls back every succeeded step below `failedAt`, in reverse order; failing rollbacks do not stop it. */
  method RollbackPrior<W>(steps: seq<Step<W>>, failedAt: nat, results: array<StepResult>, start: W, log0: seq<Event>)
    returns (found: bool, world: W, log: seq<Event>)
    requires failedAt <= |steps| == results.Length
    modifies results
    ensures world == Undo(steps, old(results[..]), 0, failedAt, start)
    ensures log == log0 + UndoLog(steps, old(results[..]), 0, failedAt, start)
    ensures found <==> exists j :: 0 <= j < failedAt && old(results[j].status) == Succeeded
    ensures forall j | 0 <= j < results.Length :: results[j] ==
              if j < failedAt && old(results[j].status) == Succeeded
              then UndoneRow(steps, old(results[..]), j, failedAt, start) else old(results[j])
  {
    ghost var before := results[..];
    found, world, log := false, start, log0;
    var i := failedAt;
    while 0 < i
      invariant 0 <= i <= failedAt
      invariant world == Undo(steps, before, i, failedAt, start)
      invariant log == log0 + UndoLog(steps, before, i, failedAt, start)
      invariant found <==> exists j :: i <= j < failedAt && before[j].status == Succeeded
      invariant forall j | 0 <= j < results.Length :: results[j] ==
                  if i <= j < failedAt && before[j].status == Succeeded
                  then UndoneRow(steps, before, j, failedAt, start) else before[j]
    {
      i := i - 1;
      UndoOneMore(steps, before, i, failedAt, start);
      if results[i].status != Succeeded {
        continue;
      }
      found := true;
      var call := SafeRollback(steps[i], world);
      world := call.world;
      results[i] := results[i].(status := RolledBack, error := call.error);
      log := log + [Undone(i), OnStepDone(results[i])];
    }
  }

  // ---- The whole run ----

  /** Row `j` when the backward pass starts, or at the end if there is none. */
  function RowBefore<W>(steps: seq<Step<W>>, e: End<W>, ctxErr: string, j: nat): StepResult
    requires j < |steps|
  {
    var k := Done(steps, e);
    if j < k then Finished(steps[j].name)
    else if e.FailedAt? && j == k then StepResult(steps[j].name, Failed, Some(e.error))
    else StepResult(steps[j].name, Skipped, if e.CancelledAt? then Some(ctxErr) else None)
  }

  function RowsBefore<W>(steps: seq<Step<W>>, e: End<W>, ctxErr: string): (rows: seq<StepResult>)
    ensures |rows| == |steps|
    ensures forall j | 0 <= j < |steps| :: rows[j] == RowBefore(steps, e, ctxErr, j)
  {
    FirstRows(steps, e, ctxErr, |steps|)
  }

  function FirstRows<W>(steps: seq<Step<W>>, e: End<W>, ctxErr: string, k: nat): (rows: seq<StepResult>)
    requires k <= |steps|
    ensures |rows| == k && forall j | 0 <= j < k :: rows[j] == RowBefore(steps, e, ctxErr, j)
  {
    if k == 0 then [] else FirstRows(steps, e, ctxErr, k - 1) + [RowBefore(steps, e, ctxErr, k - 1)]
  }

  /** The rows of the result: those of the forward pass, with the completed ones undone unless all completed. */
  ghost predicate FinalRows<W>(steps: seq<Step<W>>, e: End<W>, ctxErr: string, rows: seq<StepResult>) {
    && Done(steps, e) <= |steps| == |rows|
    && forall j | 0 <= j < |rows| :: rows[j] ==
         if e.Completed? || Done(steps, e) <= j then RowBefore(steps, e, ctxErr, j)
         else UndoneRow(steps, RowsBefore(steps, e, ctxErr), j, Done(steps, e), e.world)
  }

  function FailureLog<W>(steps: seq<Step<W>>, e: End<W>): seq<Event>
    requires e.FailedAt? ==> e.at < |steps|
  {
    if !e.FailedAt? then []
    else [OnStepStart(Started(steps[e.at].name)), Applied(e.at),
          OnStepDone(StepResult(steps[e.at].name, Failed, Some(e.error)))]
  }

  /** The rollbacks of a run. */
  function UndoPart<W>(steps: seq<Step<W>>, e: End<W>, ctxErr: string): seq<Event>
    requires Done(steps, e) <= |steps|
  {
    if e.Completed? then [] else UndoLog(steps, RowsBefore(steps, e, ctxErr), 0, Done(steps, e), e.world)
  }

  /** Everything that happens before the plan-done callback. */
  function RunLog<W>(steps: seq<Step<W>>, e: End<W>, ctxErr: string): seq<Event>
    requires Done(steps, e) <= |steps|
    requires e.FailedAt? ==> e.at < |steps|
  {
    ForwardLog(steps, Done(steps, e)) + FailureLog(steps, e) + UndoPart(steps, e, ctxErr)
  }

  function FinalWorld<W>(steps: seq<Step<W>>, e: End<W>, ctxErr: string): W
    requires Done(steps, e) <= |steps|
  {
    if e.Completed? then e.world else Undo(steps, RowsBefore(steps, e, ctxErr), 0, Done(steps, e), e.world)
  }

  /** The backward pass over the rows the forward pass left. */
  method RollbackCompleted<W>(steps: seq<Step<W>>, ghost e: End<W>, ghost ctxErr: string, k: nat,
                              results: array<StepResult>, start: W, log0: seq<Event>)
    returns (found: bool, world: W, log: seq<Event>)
    requires !e.Completed? && Done(steps, e) == k <= |steps| == results.Length
    requires start == e.world
    requires forall j | 0 <= j < |steps| :: results[j] == RowBefore(steps, e, ctxErr, j)
    modifies results
    ensures found == (0 < k)
    ensures world == FinalWorld(steps, e, ctxErr)
    ensures log == log0 + UndoLog(steps, RowsBefore(steps, e, ctxErr), 0, k, e.world)
    ensures FinalRows(steps, e, ctxErr, results[..])
  {
    assert results[..] == RowsBefore(steps, e, ctxErr);
    found, world, log := RollbackPrior(steps, k, results, start, log0);
    assert 0 < k ==> RowBefore(steps, e, ctxErr, 0).status == Succeeded;
  }

  /** The backward pass after cancellation: it starts at the last succeeded row, if there is one. */
  method RollbackAfterCancel<W>(steps: seq<Step<W>>, ghost e: End<W>, ghost ctxErr: string,
                                results: array<StepResult>, start: W, log0: seq<Event>)
    returns (found: bool, world: W, log: seq<Event>)
    requires e.CancelledAt? && e.at <= |steps| == results.Length
    requires start == e.world
    requires forall j | 0 <= j < |steps| :: results[j] == RowBefore(steps, e, ctxErr, j)
    modifies results
    ensures found == (0 < e.at)
    ensures world == FinalWorld(steps, e, ctxErr)
    ensures log == log0 + UndoLog(steps, RowsBefore(steps, e, ctxErr), 0, e.at, e.world)
    ensures FinalRows(steps, e, ctxErr, results[..])
  {
    found, world, log := false, start, log0;
    var i := |steps|;
    while 0 < i
      invariant e.at <= i <= |steps|
    {
      i := i - 1;
      if results[i].status == Succeeded {
        found, world, log := RollbackCompleted(steps, e, ctxErr, i + 1, results, world, log);
        return;
      }
    }
  }

  /** Marks every row after the failed one. */
  method SkipLater(results: array<StepResult>, failed: nat)
    requires failed < results.Length
    modifies results
    ensures forall m | 0 <= m < results.Length ::
              results[m] == if m <= failed then old(results[m]) else old(results[m]).(status := Skipped)
  {
    for j := failed + 1 to results.Length
      invariant forall m | 0 <= m < results.Length ::
                  results[m] == if m <= failed || j <= m then old(results[m]) else old(results[m]).(status := Skipped)
    {
      results[j] := results[j].(status := Skipped);
    }
  }

  /** Applies step `i` and records its outcome in its row. */
  method RunStep<W>(steps: seq<Step<W>>, i: nat, results: array<StepResult>, start: W, log0: seq<Event>)
    returns (error: Option<string>, world: W, log: seq<Event>)
    requires i < |steps| == results.Length
    modifies results
    ensures var call := SafeApply(steps[i], start); error == call.error && world == call.world
    ensures results[i] == StepResult(steps[i].name, if error == None then Succeeded else Failed, error)
    ensures forall j | 0 <= j < results.Length && j != i :: results[j] == old(results[j])
    ensures log == log0 + [OnStepStart(Started(steps[i].name)), Applied(i), OnStepDone(results[i])]
  {
    var sr := StepResult(steps[i].name, Running, None);
    results[i] := sr;
    log := log0 + [OnStepStart(sr)];
    var call := SafeApply(steps[i], start);
    error, world := call.error, call.world;
    log := log + [Applied(i)];
    if error.Some? {
      sr := sr.(status := Failed, error := error);
      results[i] := sr;
      log := log + [OnStepDone(sr)];
      return;
    }
    sr := sr.(status := Succeeded);
    results[i] := sr;
    log := log + [OnStepDone(sr)];
  }

  /** Where the loop stands before poll `i`: nothing failed so far, and the cancelled steps are all at the end. */
  ghost predicate AtPoll<W>(steps: seq<Step<W>>, e: End<W>, ctxErr: string, cancelAt: nat, i: nat,
                            rows: seq<StepResult>, w: W, log: seq<Event>)
  {
    && i <= |steps| == |rows|
    && (forall j | 0 <= j < i :: rows[j] == RowBefore(steps, e, ctxErr, j))
    && (forall j | i <= j < |steps| :: rows[j] == StepResult(steps[j].name, Pending, None))
    && if i <= Done(steps, e) then Forward(steps, i, w, cancelAt) == e && log == ForwardLog(steps, i)
       else e.CancelledAt? && cancelAt <= e.at && w == e.world && log == ForwardLog(steps, Done(steps, e))
  }

  /** One step past poll `i` once the context is cancelled: the step is skipped. */
  method SkipStepAt<W>(steps: seq<Step<W>>, ghost e: End<W>, ctxErr: string, ghost cancelAt: nat, i: nat,
                       results: array<StepResult>, ghost w: W, ghost log: seq<Event>)
    requires AtPoll(steps, e, ctxErr, cancelAt, i, results[..], w, log)
    requires cancelAt <= i < |steps|
    modifies results
    ensures e.CancelledAt?
    ensures AtPoll(steps, e, ctxErr, cancelAt, i + 1, results[..], w, log)
  {
    assert e.CancelledAt? && e.at <= i;
    ghost var rows := results[..];
    results[i] := results[i].(status := Skipped, error := Some(ctxErr));
    assert forall j | 0 <= j < |steps| && j != i :: results[j] == rows[j];
  }

  /** One step past poll `i`: either the loop goes on, or the plan has failed here. */
  method RunStepAt<W>(steps: seq<Step<W>>, ghost e: End<W>, ghost ctxErr: string, ghost cancelAt: nat, i: nat,
                      results: array<StepResult>, start: W, log0: seq<Event>)
    returns (error: Option<string>, world: W, log: seq<Event>)
    requires AtPoll(steps, e, ctxErr, cancelAt, i, results[..], start, log0)
    requires i < |steps| && i < cancelAt
    modifies results
    ensures error == None ==> AtPoll(steps, e, ctxErr, cancelAt, i + 1, results[..], world, log)
    ensures error.Some? ==>
              && e == FailedAt(i, error.value, world)
              && log == ForwardLog(steps, i) + FailureLog(steps, e)
              && (forall j | 0 <= j <= i :: results[j] == RowBefore(steps, e, ctxErr, j))
              && (forall j | i < j < |steps| :: results[j] == StepResult(steps[j].name, Pending, None))
  {
    ghost var rows := results[..];
    error, world, log := RunStep(steps, i, results, start, log0);
    assert forall j | 0 <= j < |steps| && j != i :: results[j] == rows[j];
  }

  /** What a run whose forward pass ends at `e` reports, leaves behind and makes happen. */
  ghost predicate RunOutcome<W>(planName: string, steps: seq<Step<W>>, e: End<W>, ctxErr: string,
                                res: Result, world: W, log: seq<Event>)
  {
    && Done(steps, e) <= |steps| && (e.FailedAt? ==> e.at < |steps|)
    && FinalRows(steps, e, ctxErr, res.steps)
    && res.planName == planName
    && res.rolledBack == (!e.Completed? && 0 < Done(steps, e))
    && res.finalError == (match e case Completed(_) => None
                          case FailedAt(_, err, _) => Some(err)
                          case CancelledAt(_, _) => Some(ctxErr))
    && world == FinalWorld(steps, e, ctxErr)
    && log == RunLog(steps, e, ctxErr) + [OnPlanDone(res)]
  }

  /** The way out when step `i` failed. */
  method FailPlan<W>(planName: string, steps: seq<Step<W>>, ghost e: End<W>, ghost ctxErr: string, i: nat,
                     error: string, results: array<StepResult>, start: W, log0: seq<Event>)
    returns (res: Result, world: W, log: seq<Event>)
    requires e == FailedAt(i, error, start) && i < |steps| == results.Length
    requires log0 == ForwardLog(steps, i) + FailureLog(steps, e)
    requires forall j | 0 <= j <= i :: results[j] == RowBefore(steps, e, ctxErr, j)
    requires forall j | i < j < |steps| :: results[j] == StepResult(steps[j].name, Pending, None)
    modifies results
    ensures RunOutcome(planName, steps, e, ctxErr, res, world, log)
  {
    SkipLater(results, i);
    var found;
    found, world, log := RollbackCompleted(steps, e, ctxErr, i, results, start, log0);
    res := Result(planName, results[..], found, Some(error));
    log := log + [OnPlanDone(res)];
  }

  /** The way out when the loop went through every step. */
  method FinishPlan<W>(planName: string, steps: seq<Step<W>>, ghost e: End<W>, cancelled: bool, ctxErr: string,
                       results: array<StepResult>, start: W, log0: seq<Event>)
    returns (res: Result, world: W, log: seq<Event>)
    requires !e.FailedAt? && cancelled == e.CancelledAt? && Done(steps, e) <= |steps| == results.Length
    requires start == e.world && log0 == ForwardLog(steps, Done(steps, e))
    requires forall j | 0 <= j < |steps| :: results[j] == RowBefore(steps, e, ctxErr, j)
    modifies results
    ensures RunOutcome(planName, steps, e, ctxErr, res, world, log)
  {
    var found, finalError := false, None;
    world, log := start, log0;
    if cancelled {
      finalError := Some(ctxErr);
      found, world, log := RollbackAfterCancel(steps, e, ctxErr, results, world, log);
    }
    res := Result(planName, results[..], found, finalError);
    assert log == RunLog(steps, e, ctxErr);
    log := log + [OnPlanDone(res)];
  }

  method PendingRows<W>(steps: seq<Step<W>>) returns (results: array<StepResult>)
    ensures fresh(results) && results.Length == |steps|
    ensures forall j | 0 <= j < |steps| :: results[j] == StepResult(steps[j].name, Pending, None)
  {
    results := new StepResult[|steps|](_ => StepResult("", Pending, None));
    for i := 0 to |steps|
      invariant forall j | 0 <= j < i :: results[j] == StepResult(steps[j].name, Pending, None)
    {
      results[i] := StepResult(steps[i].name, Pending, None);
    }
  }

  lemma StartAtPoll<W>(steps: seq<Step<W>>, e: End<W>, ctxErr: string, cancelAt: nat, rows: seq<StepResult>, w: W)
    requires e == Forward(steps, 0, w, cancelAt) && |rows| == |steps|
    requires forall j | 0 <= j < |steps| :: rows[j] == StepResult(steps[j].name, Pending, None)
    ensures AtPoll(steps, e, ctxErr, cancelAt, 0, rows, w, [])
  {
  }

  method Run<W>(planName: string, steps: seq<Step<W>>, start: W, cancelAt: nat, ctxErr: string)
    returns (res: Result, world: W, log: seq<Event>)
    ensures RunOutcome(planName, steps, Forward(steps, 0, start, cancelAt), ctxErr, res, world, log)
    ensures Told(steps, start, res, world, log)
  {
    ghost var e := Forward(steps, 0, start, cancelAt);
    var results := PendingRows(steps);
    world, log := start, [];
    StartAtPoll(steps, e, ctxErr, cancelAt, results[..], start);
    for i := 0 to |steps|
      invariant AtPoll(steps, e, ctxErr, cancelAt, i, results[..], world, log)
    {
      if cancelAt <= i {
        SkipStepAt(steps, e, ctxErr, cancelAt, i, results, world, log);
        continue;
      }
      var error;
      error, world, log := RunStepAt(steps, e, ctxErr, cancelAt, i, results, world, log);
      if error.Some? {
        res, world, log := FailPlan(planName, steps, e, ctxErr, i, error.value, results, world, log);
        RunIsTold(planName, steps, start, cancelAt, ctxErr, res, world, log);
        return;
      }
    }
    res, world, log := FinishPlan(planName, steps, e, cancelAt <= |steps|, ctxErr, results, world, log);
    RunIsTold(planName, steps, start, cancelAt, ctxErr, res, world, log);
  }

  // ---- A plan is a transaction ----

  /** Every status of a step in lo..hi is `status`. */
  predicate All(rows: seq<StepResult>, lo: nat, hi: nat, status: Status)
    requires lo <= hi <= |rows|
  {
    forall j | lo <= j < hi :: rows[j].status == status
  }

  /** The final rows, by how the forward pass ended. */
  lemma FinalStatuses<W>(steps: seq<Step<W>>, e: End<W>, ctxErr: string, rows: seq<StepResult>)
    requires FinalRows(steps, e, ctxErr, rows) && (e.FailedAt? ==> e.at < |steps|)
    ensures |rows| == |steps| && forall j | 0 <= j < |steps| :: rows[j].name == steps[j].name
    ensures var k := Done(steps, e);
            && All(rows, 0, k, if e.Completed? then Succeeded else RolledBack)
            && (e.FailedAt? ==> rows[k].status == Failed && rows[k].error == Some(e.error))
            && All(rows, if e.FailedAt? then k + 1 else k, |steps|, Skipped)
  {
    if e.FailedAt? {
      assert rows[e.at] == RowBefore(steps, e, ctxErr, e.at);
    }
  }

  /** The statuses of a finished run form one of exactly three words, told apart by how the run ended. */
  lemma StatusWord<W>(planName: string, steps: seq<Step<W>>, start: W, cancelAt: nat, ctxErr: string,
                      res: Result, world: W, log: seq<Event>)
    requires RunOutcome(planName, steps, Forward(steps, 0, start, cancelAt), ctxErr, res, world, log)
    ensures |res.steps| == |steps| && forall j | 0 <= j < |steps| :: res.steps[j].name == steps[j].name
    ensures res.finalError == None <==> All(res.steps, 0, |steps|, Succeeded) && (|steps| == 0 ==> 0 < cancelAt)
    ensures res.finalError.Some? ==>
              || (exists i | 0 <= i < |steps| && i < cancelAt ::
                    && All(res.steps, 0, i, RolledBack)
                    && res.steps[i].status == Failed && res.steps[i].error == res.finalError
                    && All(res.steps, i + 1, |steps|, Skipped))
              || (cancelAt <= |steps| && res.finalError == Some(ctxErr)
                  && All(res.steps, 0, cancelAt, RolledBack) && All(res.steps, cancelAt, |steps|, Skipped))
  {
    var e := Forward(steps, 0, start, cancelAt);
    FinalStatuses(steps, e, ctxErr, res.steps);
    if e.CancelledAt? {
      CancelledOnTime(steps, 0, start, cancelAt);
      assert 0 < |steps| ==> res.steps[0].status != Succeeded;
    }
  }

  lemma {:induction false} CancelledOnTime<W>(steps: seq<Step<W>>, i: nat, w: W, cancelAt: nat)
    requires i <= |steps| && i <= cancelAt
    requires Forward(steps, i, w, cancelAt).CancelledAt?
    ensures Forward(steps, i, w, cancelAt).at == cancelAt
    decreases |steps| - i
  {
    if i < cancelAt {
      CancelledOnTime(steps, i + 1, SafeApply(steps[i], w).world, cancelAt);
    }
  }

  /** The calls into the steps, without the callbacks. */
  function Calls(log: seq<Event>): seq<Event> {
    if log == [] then []
    else Calls(log[..|log| - 1]) + if log[|log| - 1].Applied? || log[|log| - 1].Undone? then log[|log| - 1..] else []
  }

  lemma {:induction false} CallsOfConcat(a: seq<Event>, b: seq<Event>)
    ensures Calls(a + b) == Calls(a) + Calls(b)
  {
    if b == [] {
      assert a + b == a;
    } else {
      assert (a + b)[..|a + b| - 1] == a + b[..|b| - 1];
      assert (a + b)[|a + b| - 1..] == b[|b| - 1..];
      CallsOfConcat(a, b[..|b| - 1]);
    }
  }

  /** Steps 0, 1, ..., n - 1 applied in that order. */
  function AppliedInOrder(n: nat): seq<Event> {
    if n == 0 then [] else AppliedInOrder(n - 1) + [Applied(n - 1)]
  }

  /** Steps hi - 1, ..., lo undone in that order. */
  function UndoneInReverse(lo: nat, hi: nat): seq<Event>
    requires lo <= hi
    decreases hi - lo
  {
    if lo == hi then [] else UndoneInReverse(lo + 1, hi) + [Undone(lo)]
  }

  lemma CallsOfOne(e: Event)
    ensures Calls([e]) == if e.Applied? || e.Undone? then [e] else []
  {
    assert [e][..0] == [] && [e][0..] == [e];
  }

  lemma CallsOfStep(before: StepResult, i: nat, after: StepResult)
    ensures Calls([OnStepStart(before), Applied(i), OnStepDone(after)]) == [Applied(i)]
  {
    CallsOfConcat([OnStepStart(before)], [Applied(i)]);
    CallsOfConcat([OnStepStart(before)] + [Applied(i)], [OnStepDone(after)]);
    assert [OnStepStart(before)] + [Applied(i)] + [OnStepDone(after)]
        == [OnStepStart(before), Applied(i), OnStepDone(after)];
    CallsOfOne(OnStepStart(before));
    CallsOfOne(Applied(i));
    CallsOfOne(OnStepDone(after));
  }

  lemma CallsOfUndo(i: nat, after: StepResult)
    ensures Calls([Undone(i), OnStepDone(after)]) == [Undone(i)]
  {
    CallsOfConcat([Undone(i)], [OnStepDone(after)]);
    CallsOfOne(Undone(i));
    CallsOfOne(OnStepDone(after));
  }

  lemma {:induction false} ForwardCalls<W>(steps: seq<Step<W>>, k: nat)
    requires k <= |steps|
    ensures Calls(ForwardLog(steps, k)) == AppliedInOrder(k)
  {
    if 0 < k {
      var before, after := Started(steps[k - 1].name), Finished(steps[k - 1].name);
      CallsOfConcat(ForwardLog(steps, k - 1), [OnStepStart(before), Applied(k - 1), OnStepDone(after)]);
      CallsOfStep(before, k - 1, after);
      ForwardCalls(steps, k - 1);
    }
  }

  lemma {:induction false} UndoCalls<W>(steps: seq<Step<W>>, before: seq<StepResult>, lo: nat, hi: nat, w: W)
    requires lo <= hi <= |steps| == |before|
    requires All(before, lo, hi, Succeeded)
    ensures Calls(UndoLog(steps, before, lo, hi, w)) == UndoneInReverse(lo, hi)
    decreases hi - lo
  {
    if lo < hi {
      var after := UndoneRow(steps, before, lo, hi, w);
      CallsOfConcat(UndoLog(steps, before, lo + 1, hi, w), [Undone(lo), OnStepDone(after)]);
      CallsOfUndo(lo, after);
      UndoCalls(steps, before, lo + 1, hi, w);
    }
  }

  lemma FailureCalls<W>(steps: seq<Step<W>>, e: End<W>)
    requires e.FailedAt? ==> e.at < |steps|
    ensures Calls(FailureLog(steps, e)) == if e.FailedAt? then [Applied(e.at)] else []
  {
    if e.FailedAt? {
      CallsOfStep(Started(steps[e.at].name), e.at, StepResult(steps[e.at].name, Failed, Some(e.error)));
    }
  }

  lemma UndoPartCalls<W>(steps: seq<Step<W>>, e: End<W>, ctxErr: string)
    requires Done(steps, e) <= |steps|
    ensures Calls(UndoPart(steps, e, ctxErr)) == if e.Completed? then [] else UndoneInReverse(0, Done(steps, e))
  {
    if !e.Completed? {
      UndoCalls(steps, RowsBefore(steps, e, ctxErr), 0, Done(steps, e), e.world);
    }
  }

  lemma LogInParts<W>(planName: string, steps: seq<Step<W>>, e: End<W>, ctxErr: string,
                      res: Result, world: W, log: seq<Event>)
    requires RunOutcome(planName, steps, e, ctxErr, res, world, log)
    ensures Done(steps, e) <= |steps| && (e.FailedAt? ==> e.at < |steps|)
    ensures log == ForwardLog(steps, Done(steps, e)) + FailureLog(steps, e) + UndoPart(steps, e, ctxErr)
                   + [OnPlanDone(res)]
  {
  }

  lemma AppliedPart<W>(steps: seq<Step<W>>, e: End<W>)
    requires Done(steps, e) <= |steps| && (e.FailedAt? ==> e.at < |steps|)
    ensures Calls(ForwardLog(steps, Done(steps, e))) + Calls(FailureLog(steps, e))
         == AppliedInOrder(if e.FailedAt? then Done(steps, e) + 1 else Done(steps, e))
  {
    ForwardCalls(steps, Done(steps, e));
    FailureCalls(steps, e);
  }

  /**
   Steps are applied in order, each at most once; unless all were completed, exactly the completed ones are then
   rolled back, each once and in reverse, whatever the rollbacks return.
   */
  lemma CallsInOrder<W>(planName: string, steps: seq<Step<W>>, e: End<W>, ctxErr: string,
                        res: Result, world: W, log: seq<Event>)
    requires RunOutcome(planName, steps, e, ctxErr, res, world, log)
    ensures var k := Done(steps, e);
            Calls(log) == AppliedInOrder(if e.FailedAt? then k + 1 else k)
                        + if e.Completed? then [] else UndoneInReverse(0, k)
  {
    var k := Done(steps, e);
    LogInParts(planName, steps, e, ctxErr, res, world, log);
    CallsOfParts(ForwardLog(steps, k), FailureLog(steps, e), UndoPart(steps, e, ctxErr), OnPlanDone(res));
    AppliedPart(steps, e);
    UndoPartCalls(steps, e, ctxErr);
  }

  lemma CallsOfParts(forward: seq<Event>, failure: seq<Event>, undone: seq<Event>, last: Event)
    requires last.OnPlanDone?
    ensures Calls(forward + failure + undone + [last]) == Calls(forward) + Calls(failure) + Calls(undone)
  {
    CallsOfConcat(forward + failure + undone, [last]);
    CallsOfConcat(forward + failure, undone);
    CallsOfConcat(forward, failure);
    CallsOfOne(last);
  }

  // ---- What the calls returned, and what was told about them ----

  /** The error a call ends with; a panic is one. */
  function ErrorOf<W>(call: Call<W>, prefix: string): Option<string> {
    match call
    case Returned(_, error) => error
    case Panicked(_, reason) => Some(prefix + reason)
  }

  function WorldAfter<W>(steps: seq<Step<W>>, w: W, event: Event): W {
    match event
    case Applied(i) => if i < |steps| then steps[i].apply(w).world else w
    case Undone(i) => if i < |steps| then steps[i].rollback(w).world else w
    case _ => w
  }

  /** The world after the calls of a log, one after the other. */
  function Replay<W>(steps: seq<Step<W>>, w: W, log: seq<Event>): W {
    if log == [] then w else WorldAfter(steps, Replay(steps, w, log[..|log| - 1]), log[|log| - 1])
  }

  /** Callbacks say before a call that it starts and behind it how it went; there are no others. */
  ghost predicate TrueAt<W>(steps: seq<Step<W>>, w: W, log: seq<Event>, k: nat)
    requires k < |log|
  {
    var before := Replay(steps, w, log[..k]);
    match log[k]
    case OnStepStart(_) => k + 1 < |log| && log[k + 1].Applied?
    case Applied(i) =>
      && i < |steps| && 0 < k && k + 1 < |log|
      && log[k - 1] == OnStepStart(StepResult(steps[i].name, Running, None))
      && (var error := ErrorOf(steps[i].apply(before), "step panicked: ");
          log[k + 1] == OnStepDone(StepResult(steps[i].name, if error.None? then Succeeded else Failed, error)))
    case Undone(i) =>
      && i < |steps| && k + 1 < |log|
      && log[k + 1] == OnStepDone(StepResult(steps[i].name, RolledBack,
                                             ErrorOf(steps[i].rollback(before), "rollback panicked: ")))
    case OnStepDone(_) => 0 < k && (log[k - 1].Applied? || log[k - 1].Undone?)
    case OnPlanDone(_) => false
  }

  ghost predicate TrueLog<W>(steps: seq<Step<W>>, w: W, log: seq<Event>) {
    forall k | 0 <= k < |log| :: TrueAt(steps, w, log, k)
  }

  /** The row that the last call into step `j` was reported with. */
  function LastTold(log: seq<Event>, j: nat): Option<StepResult> {
    if |log| < 2 then None
    else
      var last, call := log[|log| - 1], log[|log| - 2];
      if last.OnStepDone? && (call == Applied(j) || call == Undone(j)) then Some(last.step)
      else LastTold(log[..|log| - 1], j)
  }

  /** A called step's row is the one last reported; the others are skipped, with the error of a cancellation. */
  ghost predicate RowsAsTold<W>(steps: seq<Step<W>>, res: Result, log: seq<Event>) {
    && |res.steps| == |steps|
    && forall j | 0 <= j < |steps| ::
         match LastTold(log, j)
         case Some(row) => res.steps[j] == row
         case None =>
           res.steps[j] == StepResult(steps[j].name, Skipped, if AnyFailed(res.steps) then None else res.finalError)
  }

  predicate AnyFailed(rows: seq<StepResult>) {
    exists i | 0 <= i < |rows| :: rows[i].status == Failed
  }

  /** The log is true, the world is what its calls lead to, and the rows are what it says last. */
  ghost predicate Told<W>(steps: seq<Step<W>>, start: W, res: Result, world: W, log: seq<Event>) {
    && log != [] && log[|log| - 1] == OnPlanDone(res)
    && TrueLog(steps, start, log[..|log| - 1])
    && world == Replay(steps, start, log[..|log| - 1])
    && RowsAsTold(steps, res, log[..|log| - 1])
  }

  lemma ReplayOneMore<W>(steps: seq<Step<W>>, w: W, log: seq<Event>, event: Event)
    ensures Replay(steps, w, log + [event]) == WorldAfter(steps, Replay(steps, w, log), event)
  {
    assert (log + [event])[..|log|] == log;
  }

  lemma ToldOneMore(log: seq<Event>, event: Event, j: nat)
    ensures var told := log != [] && event.OnStepDone? && log[|log| - 1] in {Applied(j), Undone(j)};
            LastTold(log + [event], j) == if told then Some(event.step) else LastTold(log, j)
  {
    assert (log + [event])[..|log|] == log;
  }

  /** What a whole log says stays true when more follows. */
  lemma TrueStays<W>(steps: seq<Step<W>>, w: W, log: seq<Event>, more: seq<Event>)
    requires TrueLog(steps, w, log)
    ensures forall k | 0 <= k < |log| :: TrueAt(steps, w, log + more, k)
  {
    forall k | 0 <= k < |log|
      ensures TrueAt(steps, w, log + more, k)
    {
      assert TrueAt(steps, w, log, k);
      assert (log + more)[..k] == log[..k];
    }
  }

  /** A call into step `i` and what is told about it. */
  function ApplyPart<W>(steps: seq<Step<W>>, i: nat, w: W): seq<Event>
    requires i < |steps|
  {
    var error := ErrorOf(steps[i].apply(w), "step panicked: ");
    [OnStepStart(StepResult(steps[i].name, Running, None)), Applied(i),
     OnStepDone(StepResult(steps[i].name, if error.None? then Succeeded else Failed, error))]
  }

  function RollbackPart<W>(steps: seq<Step<W>>, i: nat, w: W): seq<Event>
    requires i < |steps|
  {
    [Undone(i), OnStepDone(StepResult(steps[i].name, RolledBack,
                                      ErrorOf(steps[i].rollback(w), "rollback panicked: ")))]
  }

  lemma ApplyPartTold<W>(steps: seq<Step<W>>, w: W, log: seq<Event>, i: nat)
    requires TrueLog(steps, w, log) && i < |steps|
    ensures var before := Replay(steps, w, log);
            var part := ApplyPart(steps, i, before);
            && TrueLog(steps, w, log + part)
            && Replay(steps, w, log + part) == steps[i].apply(before).world
            && (forall j: nat :: LastTold(log + part, j) == if j == i then Some(part[2].step) else LastTold(log, j))
  {
    var before := Replay(steps, w, log);
    var part := ApplyPart(steps, i, before);
    var one, two := log + [part[0]], log + [part[0]] + [part[1]];
    assert log + part == two + [part[2]];
    ReplayOneMore(steps, w, log, part[0]);
    ReplayOneMore(steps, w, one, part[1]);
    ReplayOneMore(steps, w, two, part[2]);
    TrueStays(steps, w, log, part);
    assert (log + part)[..|log| + 1] == one;
    assert TrueAt(steps, w, log + part, |log|);
    assert TrueAt(steps, w, log + part, |log| + 1);
    assert TrueAt(steps, w, log + part, |log| + 2);
    forall j: nat
      ensures LastTold(log + part, j) == if j == i then Some(part[2].step) else LastTold(log, j)
    {
      ToldOneMore(log, part[0], j);
      ToldOneMore(one, part[1], j);
      ToldOneMore(two, part[2], j);
    }
  }

  lemma RollbackPartTold<W>(steps: seq<Step<W>>, w: W, log: seq<Event>, i: nat)
    requires TrueLog(steps, w, log) && i < |steps|
    ensures var before := Replay(steps, w, log);
            var part := RollbackPart(steps, i, before);
            && TrueLog(steps, w, log + part)
            && Replay(steps, w, log + part) == steps[i].rollback(before).world
            && (forall j: nat :: LastTold(log + part, j) == if j == i then Some(part[1].step) else LastTold(log, j))
  {
    var before := Replay(steps, w, log);
    var part := RollbackPart(steps, i, before);
    var one := log + [part[0]];
    assert log + part == one + [part[1]];
    ReplayOneMore(steps, w, log, part[0]);
    ReplayOneMore(steps, w, one, part[1]);
    TrueStays(steps, w, log, part);
    assert (log + part)[..|log|] == log;
    assert TrueAt(steps, w, log + part, |log|);
    assert TrueAt(steps, w, log + part, |log| + 1);
    forall j: nat
      ensures LastTold(log + part, j) == if j == i then Some(part[1].step) else LastTold(log, j)
    {
      ToldOneMore(log, part[0], j);
      ToldOneMore(one, part[1], j);
    }
  }

  /** The log tells of the first `k` steps, all completed, and the forward pass goes on from where it leads. */
  ghost predicate ForwardSaid<W>(steps: seq<Step<W>>, start: W, cancelAt: nat, k: nat, log: seq<Event>)
    requires k <= |steps|
  {
    && TrueLog(steps, start, log)
    && Forward(steps, k, Replay(steps, start, log), cancelAt) == Forward(steps, 0, start, cancelAt)
    && forall j: nat :: LastTold(log, j) == if j < k then Some(Finished(steps[j].name)) else None
  }

  lemma ForwardStep<W>(steps: seq<Step<W>>, k: nat, w: W, cancelAt: nat)
    requires k < |steps| && k < Done(steps, Forward(steps, k, w, cancelAt))
    ensures Forward(steps, k + 1, steps[k].apply(w).world, cancelAt) == Forward(steps, k, w, cancelAt)
    ensures ApplyPart(steps, k, w)
         == [OnStepStart(Started(steps[k].name)), Applied(k), OnStepDone(Finished(steps[k].name))]
  {
  }

  lemma ForwardSaidStep<W>(steps: seq<Step<W>>, start: W, cancelAt: nat, k: nat, log: seq<Event>)
    requires k < |steps| && ForwardSaid(steps, start, cancelAt, k, log)
    requires k < Done(steps, Forward(steps, 0, start, cancelAt))
    ensures ForwardSaid(steps, start, cancelAt, k + 1, log +
      [OnStepStart(Started(steps[k].name)), Applied(k), OnStepDone(Finished(steps[k].name))])
  {
    ForwardStep(steps, k, Replay(steps, start, log), cancelAt);
    ApplyPartTold(steps, start, log, k);
  }

  lemma {:induction false} ForwardTold<W>(steps: seq<Step<W>>, start: W, cancelAt: nat, k: nat)
    requires k <= Done(steps, Forward(steps, 0, start, cancelAt)) && k <= |steps|
    ensures ForwardSaid(steps, start, cancelAt, k, ForwardLog(steps, k))
  {
    if 0 < k {
      ForwardTold(steps, start, cancelAt, k - 1);
      ForwardSaidStep(steps, start, cancelAt, k - 1, ForwardLog(steps, k - 1));
    }
  }

  /** The forward pass, the failed step included. */
  ghost predicate ForwardPassSaid<W>(steps: seq<Step<W>>, start: W, e: End<W>, log: seq<Event>)
    requires Done(steps, e) <= |steps| && (e.FailedAt? ==> e.at < |steps|)
  {
    && TrueLog(steps, start, log) && Replay(steps, start, log) == e.world
    && forall j: nat :: LastTold(log, j) ==
         if j < Done(steps, e) then Some(Finished(steps[j].name))
         else if e.FailedAt? && j == e.at then Some(StepResult(steps[j].name, Failed, Some(e.error)))
         else None
  }

  /** A step that fails. */
  lemma FailureStep<W>(steps: seq<Step<W>>, k: nat, w: W, cancelAt: nat)
    requires k < |steps| && Forward(steps, k, w, cancelAt).FailedAt? && Forward(steps, k, w, cancelAt).at == k
    ensures var e := Forward(steps, k, w, cancelAt);
            ApplyPart(steps, k, w) == FailureLog(steps, e) && steps[k].apply(w).world == e.world
  {
  }

  lemma ForwardPassTold<W>(steps: seq<Step<W>>, start: W, cancelAt: nat)
    requires Done(steps, Forward(steps, 0, start, cancelAt)) <= |steps|
    ensures var e := Forward(steps, 0, start, cancelAt);
            ForwardPassSaid(steps, start, e, ForwardLog(steps, Done(steps, e)) + FailureLog(steps, e))
  {
    var e := Forward(steps, 0, start, cancelAt);
    var log := ForwardLog(steps, Done(steps, e));
    ForwardTold(steps, start, cancelAt, Done(steps, e));
    if e.FailedAt? {
      FailureStep(steps, e.at, Replay(steps, start, log), cancelAt);
      ApplyPartTold(steps, start, log, e.at);
    } else {
      assert log + FailureLog(steps, e) == log;
    }
  }

  /** The rollbacks of the steps lo..hi behind a log. */
  ghost predicate UndoSaid<W>(steps: seq<Step<W>>, before: seq<StepResult>, lo: nat, hi: nat, start: W,
                              log: seq<Event>, longer: seq<Event>)
    requires lo <= hi <= |steps| == |before|
  {
    var w := Replay(steps, start, log);
    && TrueLog(steps, start, longer)
    && Replay(steps, start, longer) == Undo(steps, before, lo, hi, w)
    && forall j: nat :: LastTold(longer, j) ==
         if lo <= j < hi then Some(UndoneRow(steps, before, j, hi, w)) else LastTold(log, j)
  }

  /** One rollback more. */
  lemma UndoSaidStep<W>(steps: seq<Step<W>>, before: seq<StepResult>, lo: nat, hi: nat, start: W,
                        log: seq<Event>, longer: seq<Event>)
    requires lo < hi <= |steps| == |before| && before[lo].status == Succeeded && before[lo].name == steps[lo].name
    requires UndoSaid(steps, before, lo + 1, hi, start, log, longer)
    ensures var row := UndoneRow(steps, before, lo, hi, Replay(steps, start, log));
            UndoSaid(steps, before, lo, hi, start, log, longer + [Undone(lo), OnStepDone(row)])
  {
    var w := Replay(steps, start, log);
    UndoOneMore(steps, before, lo, hi, w);
    RollbackPartTold(steps, start, longer, lo);
    assert RollbackPart(steps, lo, Replay(steps, start, longer))
        == [Undone(lo), OnStepDone(UndoneRow(steps, before, lo, hi, w))];
  }

  lemma Regroup<T>(a: seq<T>, b: seq<T>, c: seq<T>)
    ensures a + (b + c) == a + b + c
  {
  }

  lemma {:induction false} UndoTold<W>(steps: seq<Step<W>>, before: seq<StepResult>, lo: nat, hi: nat, start: W,
                                       log: seq<Event>)
    requires lo <= hi <= |steps| == |before| && All(before, lo, hi, Succeeded) && TrueLog(steps, start, log)
    requires forall j | 0 <= j < |steps| :: before[j].name == steps[j].name
    ensures UndoSaid(steps, before, lo, hi, start, log,
                     log + UndoLog(steps, before, lo, hi, Replay(steps, start, log)))
    decreases hi - lo
  {
    var w := Replay(steps, start, log);
    if lo == hi {
      assert log + UndoLog(steps, before, lo, hi, w) == log;
    } else {
      var higher := UndoLog(steps, before, lo + 1, hi, w);
      UndoTold(steps, before, lo + 1, hi, start, log);
      UndoSaidStep(steps, before, lo, hi, start, log, log + higher);
      Regroup(log, higher, [Undone(lo), OnStepDone(UndoneRow(steps, before, lo, hi, w))]);
    }
  }

  function RowTold<W>(steps: seq<Step<W>>, e: End<W>, rows: seq<StepResult>, j: nat): Option<StepResult>
    requires j < |steps| == |rows|
  {
    if j < Done(steps, e) then Some(rows[j])
    else if e.FailedAt? && j == e.at then Some(StepResult(steps[j].name, Failed, Some(e.error)))
    else None
  }

  lemma RowsAreTold<W>(steps: seq<Step<W>>, e: End<W>, ctxErr: string, res: Result, log: seq<Event>)
    requires Done(steps, e) <= |steps| && (e.FailedAt? ==> e.at < |steps|)
    requires FinalRows(steps, e, ctxErr, res.steps) && (e.CancelledAt? ==> res.finalError == Some(ctxErr))
    requires forall j: nat | j < |steps| :: LastTold(log, j) == RowTold(steps, e, res.steps, j)
    ensures RowsAsTold(steps, res, log)
  {
    assert e.FailedAt? ==> res.steps[e.at].status == Failed;
    assert !e.FailedAt? ==> !AnyFailed(res.steps);
  }

  /** The whole log of a run but for the plan-done callback. */
  lemma CallsAreTold<W>(steps: seq<Step<W>>, start: W, cancelAt: nat, ctxErr: string, rows: seq<StepResult>)
    requires var e := Forward(steps, 0, start, cancelAt);
             Done(steps, e) <= |steps| && FinalRows(steps, e, ctxErr, rows)
    ensures var e := Forward(steps, 0, start, cancelAt);
            var log := RunLog(steps, e, ctxErr);
            && TrueLog(steps, start, log) && Replay(steps, start, log) == FinalWorld(steps, e, ctxErr)
            && forall j: nat | j < |steps| :: LastTold(log, j) == RowTold(steps, e, rows, j)
  {
    var e := Forward(steps, 0, start, cancelAt);
    var n := Done(steps, e);
    var forward := ForwardLog(steps, n) + FailureLog(steps, e);
    ForwardPassTold(steps, start, cancelAt);
    if e.Completed? {
      assert RunLog(steps, e, ctxErr) == forward;
    } else {
      UndoTold(steps, RowsBefore(steps, e, ctxErr), 0, n, start, forward);
    }
  }

  /** Every run tells the truth about every call, ends in the world its calls lead to, and reports what it told last. */
  lemma RunIsTold<W>(planName: string, steps: seq<Step<W>>, start: W, cancelAt: nat, ctxErr: string,
                     res: Result, world: W, log: seq<Event>)
    requires RunOutcome(planName, steps, Forward(steps, 0, start, cancelAt), ctxErr, res, world, log)
    ensures Told(steps, start, res, world, log)
  {
    var e := Forward(steps, 0, start, cancelAt);
    assert log[..|log| - 1] == RunLog(steps, e, ctxErr);
    CallsAreTold(steps, start, cancelAt, ctxErr, res.steps);
    RowsAreTold(steps, e, ctxErr, res, RunLog(steps, e, ctxErr));
  }

  /** A failed Apply changes nothing, and Rollback takes a successful one back. */
  ghost predicate Transactional<W(!new)>(s: Step<W>) {
    forall w :: var c := SafeApply(s, w);
      if c.error.Some? then c.world == w else SafeRollback(s, c.world).world == w
  }

  /** With transactional steps a run that does not succeed leaves the world it started from. */
  lemma UnsuccessfulRunRestoresTheWorld<W(!new)>(planName: string, steps: seq<Step<W>>, start: W, cancelAt: nat,
                                                 ctxErr: string, res: Result, world: W, log: seq<Event>)
    requires RunOutcome(planName, steps, Forward(steps, 0, start, cancelAt), ctxErr, res, world, log)
    requires forall s | s in steps :: Transactional(s)
    requires res.finalError.Some?
    ensures world == start
  {
    var e := Forward(steps, 0, start, cancelAt);
    UndoingForward(steps, RowsBefore(steps, e, ctxErr), 0, start, cancelAt);
  }

  lemma {:induction false} UndoingForward<W(!new)>(steps: seq<Step<W>>, before: seq<StepResult>, i: nat, w: W,
                                                   cancelAt: nat)
    requires i <= |steps| && forall s | s in steps :: Transactional(s)
    requires var e := Forward(steps, i, w, cancelAt);
             !e.Completed? && i <= Done(steps, e) <= |steps| == |before| && All(before, i, Done(steps, e), Succeeded)
    ensures var e := Forward(steps, i, w, cancelAt);
            Undo(steps, before, i, Done(steps, e), e.world) == w
    decreases |steps| - i
  {
    var e := Forward(steps, i, w, cancelAt);
    if i < Done(steps, e) {
      assert steps[i] in steps;
      UndoingForward(steps, before, i + 1, SafeApply(steps[i], w).world, cancelAt);
      UndoOneMore(steps, before, i, Done(steps, e), e.world);
    } else if e.FailedAt? {
      assert steps[i] in steps;
    }
  }

  // ---- The activity status of a run ----

  datatype ActivityStatus = ActivitySucceeded | ActivityFailed | ActivityRolledBack

  function ClassifyActivityStatus(res: Result): ActivityStatus {
    if res.rolledBack then ActivityRolledBack
    else if res.finalError.Some? then ActivityFailed
    else ActivitySucceeded
  }

  method FirstFailedStepName(res: Result) returns (name: string)
    ensures if exists j :: 0 <= j < |res.steps| && res.steps[j].status == Failed
            then exists j :: 0 <= j < |res.steps| && res.steps[j].status == Failed && res.steps[j].name == name
                          && forall m | 0 <= m < j :: res.steps[m].status != Failed
            else name == ""
  {
    for i := 0 to |res.steps|
      invariant forall j | 0 <= j < i :: res.steps[j].status != Failed
    {
      if res.steps[i].status == Failed {
        return res.steps[i].name;
      }
    }
    return "";
  }

  /** The classifier's three outcomes, read off the statuses. */
  lemma ClassificationMatchesStatuses<W>(planName: string, steps: seq<Step<W>>, start: W, cancelAt: nat, ctxErr: string,
                                         res: Result, world: W, log: seq<Event>)
    requires RunOutcome(planName, steps, Forward(steps, 0, start, cancelAt), ctxErr, res, world, log)
    ensures ClassifyActivityStatus(res) == ActivityRolledBack <==>
              exists j :: 0 <= j < |res.steps| && res.steps[j].status == RolledBack
    ensures ClassifyActivityStatus(res) == ActivitySucceeded <==>
              All(res.steps, 0, |res.steps|, Succeeded) && (|steps| == 0 ==> 0 < cancelAt)
    ensures ClassifyActivityStatus(res) == ActivityFailed <==>
              (0 < |steps| && res.steps[0].status in {Failed, Skipped}) || (|steps| == 0 && cancelAt == 0)
  {
    StatusWord(planName, steps, start, cancelAt, ctxErr, res, world, log);
    var e := Forward(steps, 0, start, cancelAt);
    if !e.Completed? && 0 < Done(steps, e) {
      assert res.steps[0].status == RolledBack;
    }
  }
}
