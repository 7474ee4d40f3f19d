/**
 The health action executor of internal/health/actions.go: a bounded pool with one guard per finding id,
 as interleaved atomic steps of any number of submissions and of Close.
 */
module ActionExecutor {
  import opened Wrappers

  type Id = string
  type Jid = nat

  const DEFAULT_POOL := 4

  /**
   Where a submission stands. The first four places are inside `submit`, the others in the goroutine it starts;
   a goroutine leaves by running its deferred calls in reverse order.
   */
  datatype Place =
    | Load          // before LoadOrStore
    | Swap          // before CompareAndSwap
    | Add           // before wg.Add
    | Spawn         // before the go statement
    | Select        // waiting for a slot, for Close or for the context
    | Run           // inside Action.Run
    | Report        // before the done callback
    | Clear         // before the guard is cleared
    | Free          // before the slot is given back
    | DropClear     // Close won the select: before the guard is cleared
    | CancelClear   // the context won: before the guard is cleared
    | CancelReport  // before the done callback with the context's error
    | Leave         // before wg.Done

  /** `reports` counts calls of the done callback. */
  datatype Job = Job(id: Id, hasRun: bool, place: Place, reports: nat, dropped: bool)

  datatype Closing = Open | Draining | Closed

  /** `guards` has the id's atomic flag once some submission has looked it up; finished jobs move to `finished`. */
  datatype State = State(capacity: nat, guards: map<Id, bool>, slots: int, waitGroup: int, closing: Closing,
                         jobs: map<Jid, Job>, finished: map<Jid, Job>)

  datatype Move =
    | Submit(j: Jid, id: Id, hasRun: bool)
    | Step(j: Jid)           // the one thing the job can do where it stands
    | TakeSlot(j: Jid)       // the three outcomes of the select
    | SeeClosed(j: Jid)
    | SeeCancelled(j: Jid)
    | CloseCall
    | CloseReturn

  function New(capacity: int): (s: State)
    ensures 0 < s.capacity
  {
    State(if capacity <= 0 then DEFAULT_POOL else capacity, map[], 0, 0, Open, map[], map[])
  }

  // ---- Steps ----

  predicate Enabled(s: State, m: Move) {
    match m
    case Submit(j, _, _) => j !in s.jobs && j !in s.finished
    case Step(j) => j in s.jobs && s.jobs[j].place != Select
    case TakeSlot(j) => j in s.jobs && s.jobs[j].place == Select && s.slots < s.capacity
    case SeeClosed(j) => j in s.jobs && s.jobs[j].place == Select && s.closing != Open
    case SeeCancelled(j) => j in s.jobs && s.jobs[j].place == Select
    case CloseCall => s.closing == Open
    case CloseReturn => s.closing == Draining && s.waitGroup == 0
  }

  /** What one step of a job does: to its id's guard, to the semaphore, to the wait group, and to the job itself. */
  datatype Effect = Effect(guard: Option<bool>, slots: int, waits: int, next: Next)

  datatype Next = Goes(job: Job) | Ends

  function Goto(job: Job, place: Place): Next {
    Goes(job.(place := place))
  }

  function Quiet(next: Next): Effect {
    Effect(None, 0, 0, next)
  }

  /** `guard` is the id's flag as the step finds it, if the id has been looked up before. */
  function StepEffect(job: Job, guard: Option<bool>): Effect
    requires job.place != Select
  {
    match job.place
    case Load =>
      if !job.hasRun then Quiet(Ends)                                   // "action has no Run func"
      else Effect(Some(guard == Some(true)), 0, 0, Goto(job, Swap))
    case Swap =>
      if guard == Some(true) then Quiet(Ends)                           // ErrAlreadyRunning
      else Effect(Some(true), 0, 0, Goto(job, Add))
    case Add => Effect(None, 0, 1, Goto(job, Spawn))
    case Spawn => Quiet(Goto(job, Select))
    case Run => Quiet(Goto(job, Report))
    case Report => Quiet(Goes(job.(place := Clear, reports := job.reports + 1)))
    case Clear => Effect(Some(false), 0, 0, Goto(job, Free))
    case Free => Effect(None, -1, 0, Goto(job, Leave))
    case DropClear => Effect(Some(false), 0, 0, Goes(job.(place := Leave, dropped := true)))
    case CancelClear => Effect(Some(false), 0, 0, Goto(job, CancelReport))
    case CancelReport => Quiet(Goes(job.(place := Leave, reports := job.reports + 1)))
    case Leave => Effect(None, 0, -1, Ends)
  }

  predicate JobMove(m: Move) {
    m.Step? || m.TakeSlot? || m.SeeClosed? || m.SeeCancelled?
  }

  function EffectOf(m: Move, job: Job, guard: Option<bool>): Effect
    requires JobMove(m) && (m.Step? <==> job.place != Select)
  {
    match m
    case Step(_) => StepEffect(job, guard)
    case TakeSlot(_) => Effect(None, 1, 0, Goto(job, Run))
    case SeeClosed(_) => Quiet(Goto(job, DropClear))
    case SeeCancelled(_) => Quiet(Goto(job, CancelClear))
  }

  function Guard(s: State, id: Id): Option<bool> {
    if id in s.guards then Some(s.guards[id]) else None
  }

  /** A job that ends leaves nothing of itself in the executor. */
  function Apply(s: State, j: Jid, e: Effect): State
    requires j in s.jobs
  {
    State(s.capacity,
          if e.guard == None then s.guards else s.guards[s.jobs[j].id := e.guard.value],
          s.slots + e.slots, s.waitGroup + e.waits, s.closing,
          if e.next.Ends? then s.jobs - {j} else s.jobs[j := e.next.job],
          if e.next.Ends? then s.finished[j := s.jobs[j]] else s.finished)
  }

  function JobEffect(s: State, m: Move): Effect
    requires JobMove(m) && Enabled(s, m)
  {
    EffectOf(m, s.jobs[m.j], Guard(s, s.jobs[m.j].id))
  }

  function Do(s: State, m: Move): State
    requires Enabled(s, m)
  {
    match m
    case Submit(j, id, hasRun) => s.(jobs := s.jobs[j := Job(id, hasRun, Load, 0, false)])
    case CloseCall => s.(closing := Draining)
    case CloseReturn => s.(closing := Closed)
    case _ => Apply(s, m.j, JobEffect(s, m))
  }

  predicate IsRun(s: State, moves: seq<Move>)
    decreases |moves|
  {
    moves == [] || (Enabled(s, moves[0]) && IsRun(Do(s, moves[0]), moves[1..]))
  }

  function After(s: State, moves: seq<Move>): State
    requires IsRun(s, moves)
    decreases |moves|
  {
    if moves == [] then s else After(Do(s, moves[0]), moves[1..])
  }

  // ---- Who holds what ----

  /** The places where a job owns its id's guard: from the swap that set it to the store that clears it. */
  predicate Guarding(p: Place) {
    p in {Add, Spawn, Select, Run, Report, Clear, DropClear, CancelClear}
  }

  predicate HasSlot(p: Place) {
    p in {Run, Report, Clear, Free}
  }

  predicate Counted(p: Place) {
    p !in {Load, Swap, Add}
  }

  function SlotHolders(s: State): set<Jid> {
    set j | j in s.jobs && HasSlot(s.jobs[j].place)
  }

  function Waited(s: State): set<Jid> {
    set j | j in s.jobs && Counted(s.jobs[j].place)
  }

  ghost predicate OwnersAreGuarded(s: State) {
    forall j | j in s.jobs && Guarding(s.jobs[j].place) :: s.jobs[j].id in s.guards && s.guards[s.jobs[j].id]
  }

  ghost predicate OneOwnerPerId(s: State) {
    forall i, j | i in s.jobs && j in s.jobs && Guarding(s.jobs[i].place) && Guarding(s.jobs[j].place)
      && s.jobs[i].id == s.jobs[j].id :: i == j
  }

  ghost predicate GuardsAreOwned(s: State) {
    forall id | id in s.guards && s.guards[id] ::
      exists j :: j in s.jobs && Guarding(s.jobs[j].place) && s.jobs[j].id == id
  }

  /** An id's guard is set exactly while one job owns it. */
  ghost predicate GuardsOk(s: State) {
    OwnersAreGuarded(s) && OneOwnerPerId(s) && GuardsAreOwned(s)
  }

  ghost predicate CountsOk(s: State) {
    s.slots == |SlotHolders(s)| <= s.capacity && s.waitGroup == |Waited(s)|
  }

  /** The done callback runs once at the end of a job that was started or cancelled, never for one dropped by Close. */
  ghost predicate ReportOk(job: Job) {
    && (job.dropped ==> job.place == Leave)
    && job.reports == if job.place in {Clear, Free} || (job.place == Leave && !job.dropped) then 1 else 0
  }

  ghost predicate ReportsOk(s: State) {
    && (forall j | j in s.jobs :: ReportOk(s.jobs[j]))
    && (forall j | j in s.finished :: s.finished[j].place in {Load, Swap, Leave} && ReportOk(s.finished[j]))
  }

  ghost predicate Inv(s: State) {
    GuardsOk(s) && CountsOk(s) && ReportsOk(s) && s.jobs.Keys !! s.finished.Keys
  }

  lemma NewInv(capacity: int)
    ensures Inv(New(capacity))
  {
  }

  // ---- Every step keeps the invariant ----

  function One(b: bool): int {
    if b then 1 else 0
  }

  predicate NextIs(n: Next, what: Place -> bool) {
    n.Goes? && what(n.job.place)
  }

  /** The counters move with the places: what a step does to them is the difference of before and after. */
  lemma EffectBalanced(m: Move, job: Job, guard: Option<bool>)
    requires JobMove(m) && (m.Step? <==> job.place != Select)
    ensures var e := EffectOf(m, job, guard);
            && e.slots == One(NextIs(e.next, HasSlot)) - One(HasSlot(job.place))
            && e.waits == One(NextIs(e.next, Counted)) - One(Counted(job.place))
            && (e.next.Goes? ==> e.next.job.id == job.id)
  {
  }

  /** The guard is set by a step that starts owning it, and only if it was clear; it is cleared by one that stops. */
  lemma EffectGuards(m: Move, job: Job, guard: Option<bool>)
    requires JobMove(m) && (m.Step? <==> job.place != Select)
    requires Guarding(job.place) ==> guard == Some(true)
    ensures var e := EffectOf(m, job, guard);
            var after := if e.guard.Some? then e.guard else guard;
            && (NextIs(e.next, Guarding) ==> after == Some(true))
            && (NextIs(e.next, Guarding) && !Guarding(job.place) ==> guard != Some(true))
            && (Guarding(job.place) && !NextIs(e.next, Guarding) ==> after == Some(false))
            && (!Guarding(job.place) && !NextIs(e.next, Guarding) ==> (after == Some(true) <==> guard == Some(true)))
  {
  }

  lemma EffectReports(m: Move, job: Job, guard: Option<bool>)
    requires JobMove(m) && (m.Step? <==> job.place != Select) && ReportOk(job)
    ensures var e := EffectOf(m, job, guard);
            if e.next.Goes? then ReportOk(e.next.job) else job.place in {Load, Swap, Leave}
  {
  }

  lemma SlotsApply(s: State, j: Jid, e: Effect)
    requires j in s.jobs
    requires e.slots == One(NextIs(e.next, HasSlot)) - One(HasSlot(s.jobs[j].place))
    ensures |SlotHolders(Apply(s, j, e))| == |SlotHolders(s)| + e.slots
  {
    var s' := Apply(s, j, e);
    assert SlotHolders(s') == if NextIs(e.next, HasSlot) then SlotHolders(s) + {j} else SlotHolders(s) - {j};
    assert j in SlotHolders(s) <==> HasSlot(s.jobs[j].place);
  }

  lemma WaitsApply(s: State, j: Jid, e: Effect)
    requires j in s.jobs
    requires e.waits == One(NextIs(e.next, Counted)) - One(Counted(s.jobs[j].place))
    ensures |Waited(Apply(s, j, e))| == |Waited(s)| + e.waits
  {
    var s' := Apply(s, j, e);
    assert Waited(s') == if NextIs(e.next, Counted) then Waited(s) + {j} else Waited(s) - {j};
    assert j in Waited(s) <==> Counted(s.jobs[j].place);
  }

  lemma JobMoveCounts(s: State, m: Move)
    requires Inv(s) && Enabled(s, m) && JobMove(m)
    ensures CountsOk(Apply(s, m.j, JobEffect(s, m)))
  {
    var job, e := s.jobs[m.j], JobEffect(s, m);
    EffectBalanced(m, job, Guard(s, job.id));
    SlotsApply(s, m.j, e);
    WaitsApply(s, m.j, e);
  }

  /** How an effect may touch the guard of its job's id. */
  ghost predicate GuardStep(s: State, j: Jid, e: Effect)
    requires j in s.jobs
  {
    var guard := Guard(s, s.jobs[j].id);
    var after := if e.guard.Some? then e.guard else guard;
    var was, is_ := Guarding(s.jobs[j].place), NextIs(e.next, Guarding);
    && (e.next.Goes? ==> e.next.job.id == s.jobs[j].id)
    && (is_ ==> after == Some(true))
    && (is_ && !was ==> guard != Some(true))
    && (was && !is_ ==> after == Some(false))
    && (!was && !is_ ==> (after == Some(true) <==> guard == Some(true)))
  }

  lemma OwnersStayGuarded(s: State, j: Jid, e: Effect)
    requires GuardsOk(s) && j in s.jobs && GuardStep(s, j, e)
    ensures OwnersAreGuarded(Apply(s, j, e)) && OneOwnerPerId(Apply(s, j, e))
  {
    var s' := Apply(s, j, e);
    assert forall i | i in s'.jobs && i != j :: s'.jobs[i] == s.jobs[i];
  }

  lemma GuardsStayOwned(s: State, j: Jid, e: Effect)
    requires GuardsOk(s) && j in s.jobs && GuardStep(s, j, e)
    ensures GuardsAreOwned(Apply(s, j, e))
  {
    var s', x := Apply(s, j, e), s.jobs[j].id;
    forall id | id in s'.guards && s'.guards[id]
      ensures exists i :: i in s'.jobs && Guarding(s'.jobs[i].place) && s'.jobs[i].id == id
    {
      if id == x && NextIs(e.next, Guarding) {
        assert s'.jobs[j].id == id;
      } else {
        var i :| i in s.jobs && Guarding(s.jobs[i].place) && s.jobs[i].id == id;
        assert i != j && s'.jobs[i] == s.jobs[i];
      }
    }
  }

  lemma JobMoveGuards(s: State, m: Move)
    requires Inv(s) && Enabled(s, m) && JobMove(m)
    ensures GuardsOk(Apply(s, m.j, JobEffect(s, m)))
  {
    var job, e := s.jobs[m.j], JobEffect(s, m);
    EffectBalanced(m, job, Guard(s, job.id));
    EffectGuards(m, job, Guard(s, job.id));
    OwnersStayGuarded(s, m.j, e);
    GuardsStayOwned(s, m.j, e);
  }

  lemma JobMoveInv(s: State, m: Move)
    requires Inv(s) && Enabled(s, m) && JobMove(m)
    ensures Inv(Apply(s, m.j, JobEffect(s, m)))
  {
    EffectReports(m, s.jobs[m.j], Guard(s, s.jobs[m.j].id));
    JobMoveCounts(s, m);
    JobMoveGuards(s, m);
  }

  lemma SubmitGuards(s: State, j: Jid, job: Job)
    requires GuardsOk(s) && j !in s.jobs && job.place == Load
    ensures GuardsOk(s.(jobs := s.jobs[j := job]))
  {
    var s' := s.(jobs := s.jobs[j := job]);
    forall x | x in s'.guards && s'.guards[x]
      ensures exists i :: i in s'.jobs && Guarding(s'.jobs[i].place) && s'.jobs[i].id == x
    {
      var i :| i in s.jobs && Guarding(s.jobs[i].place) && s.jobs[i].id == x;
      assert s'.jobs[i] == s.jobs[i];
    }
  }

  lemma SubmitInv(s: State, j: Jid, id: Id, hasRun: bool)
    requires Inv(s) && Enabled(s, Submit(j, id, hasRun))
    ensures Inv(s.(jobs := s.jobs[j := Job(id, hasRun, Load, 0, false)]))
  {
    var s' := s.(jobs := s.jobs[j := Job(id, hasRun, Load, 0, false)]);
    assert SlotHolders(s') == SlotHolders(s) && Waited(s') == Waited(s);
    SubmitGuards(s, j, Job(id, hasRun, Load, 0, false));
  }

  lemma MoveInv(s: State, m: Move)
    requires Inv(s) && Enabled(s, m)
    ensures Inv(Do(s, m))
  {
    match m {
      case Submit(j, id, hasRun) => SubmitInv(s, j, id, hasRun);
      case CloseCall => assert SlotHolders(Do(s, m)) == SlotHolders(s) && Waited(Do(s, m)) == Waited(s);
      case CloseReturn => assert SlotHolders(Do(s, m)) == SlotHolders(s) && Waited(Do(s, m)) == Waited(s);
      case _ => JobMoveInv(s, m);
    }
  }

  lemma {:induction false} RunInv(s: State, moves: seq<Move>)
    requires Inv(s) && IsRun(s, moves)
    ensures Inv(After(s, moves))
    decreases |moves|
  {
    if moves != [] {
      MoveInv(s, moves[0]);
      RunInv(Do(s, moves[0]), moves[1..]);
    }
  }

  // ---- What holds in every interleaving ----

  function Running(s: State): set<Jid> {
    set j | j in s.jobs && s.jobs[j].place == Run
  }

  /**
   At most one Action.Run per finding id and at most `capacity` overall are in progress, and an id's guard is set
   exactly while some accepted submission of it has not cleared it yet.
   */
  lemma Exclusion(capacity: int, moves: seq<Move>)
    requires IsRun(New(capacity), moves)
    ensures var s := After(New(capacity), moves);
            && (forall i, j | i in Running(s) && j in Running(s) && s.jobs[i].id == s.jobs[j].id :: i == j)
            && |Running(s)| <= s.slots <= s.capacity
            && (forall id | id in s.guards :: s.guards[id] <==>
                  exists j :: j in s.jobs && Guarding(s.jobs[j].place) && s.jobs[j].id == id)
  {
    NewInv(capacity);
    RunInv(New(capacity), moves);
    var s := After(New(capacity), moves);
    assert Running(s) <= SlotHolders(s);
    SubsetCount(Running(s), SlotHolders(s));
  }

  lemma {:induction false} SubsetCount(a: set<Jid>, b: set<Jid>)
    requires a <= b
    ensures |a| <= |b|
  {
    if a != {} {
      var x :| x in a;
      SubsetCount(a - {x}, b - {x});
    }
  }

  /** A submission is refused as already running exactly while another one of the same id owns the guard. */
  lemma RefusedExactlyWhileOwned(capacity: int, moves: seq<Move>, j: Jid)
    requires IsRun(New(capacity), moves)
    requires j in After(New(capacity), moves).jobs && After(New(capacity), moves).jobs[j].place == Swap
    ensures var s := After(New(capacity), moves);
            JobEffect(s, Step(j)).next.Ends? <==>
              exists i :: i in s.jobs && i != j && Guarding(s.jobs[i].place) && s.jobs[i].id == s.jobs[j].id
  {
    NewInv(capacity);
    RunInv(New(capacity), moves);
  }

  /** Once every job is over, however it left, all slots are back, all guards are clear, and nobody is waited for. */
  lemma NothingLeaks(capacity: int, moves: seq<Move>)
    requires IsRun(New(capacity), moves) && After(New(capacity), moves).jobs == map[]
    ensures var s := After(New(capacity), moves);
            s.slots == 0 && s.waitGroup == 0 && forall id | id in s.guards :: !s.guards[id]
  {
    NewInv(capacity);
    RunInv(New(capacity), moves);
    var s := After(New(capacity), moves);
    assert SlotHolders(s) == {} && Waited(s) == {};
  }

  /** How many steps a job has left at most. */
  function Left(p: Place): nat {
    match p
    case Load => 9 case Swap => 8 case Add => 7 case Spawn => 6 case Select => 5
    case Run => 4 case Report => 3 case Clear => 2 case Free => 1
    case DropClear => 1 case CancelClear => 2 case CancelReport => 1
    case Leave => 0
  }

  /** Every step of a job brings it closer to its end. */
  lemma JobsAdvance(m: Move, job: Job, guard: Option<bool>)
    requires JobMove(m) && (m.Step? <==> job.place != Select)
    ensures var next := EffectOf(m, job, guard).next;
            next.Goes? ==> Left(next.job.place) < Left(job.place)
  {
  }

  /** The next move of some job, if there is a job: no context has to be cancelled for it. */
  lemma NextJobMove(s: State) returns (m: Move)
    requires Inv(s) && 0 < s.capacity && s.jobs != map[]
    ensures Enabled(s, m) && (m.Step? || m.TakeSlot?)
  {
    var j :| j in s.jobs;
    if s.jobs[j].place != Select {
      m := Step(j);
    } else if s.slots < s.capacity {
      m := TakeSlot(j);
    } else {
      assert SlotHolders(s) != {};
      var i :| i in SlotHolders(s);
      m := Step(i);
    }
  }

  /** As long as a job is left, some job can move, even if no context is ever cancelled. */
  lemma SomeJobMoves(capacity: int, moves: seq<Move>)
    requires IsRun(New(capacity), moves) && After(New(capacity), moves).jobs != map[]
    ensures exists m :: Enabled(After(New(capacity), moves), m) && (m.Step? || m.TakeSlot?)
  {
    NewInv(capacity);
    RunInv(New(capacity), moves);
    SameCapacity(New(capacity), moves);
    var m := NextJobMove(After(New(capacity), moves));
  }

  /** The most moves the jobs still have in them. */
  ghost function Work(jobs: map<Jid, Job>): nat {
    if jobs == map[] then 0
    else
      var j :| j in jobs;
      Left(jobs[j].place) + 1 + Work(jobs - {j})
  }

  lemma {:induction false} WorkOf(jobs: map<Jid, Job>, j: Jid)
    requires j in jobs
    ensures Work(jobs) == Left(jobs[j].place) + 1 + Work(jobs - {j})
  {
    var i :| i in jobs && Work(jobs) == Left(jobs[i].place) + 1 + Work(jobs - {i});
    if i != j {
      WorkOf(jobs - {i}, j);
      WorkOf(jobs - {j}, i);
      assert jobs - {i} - {j} == jobs - {j} - {i};
    }
  }

  lemma JobMoveWorks(s: State, m: Move)
    requires JobMove(m) && Enabled(s, m)
    ensures Work(Do(s, m).jobs) < Work(s.jobs)
  {
    var job := s.jobs[m.j];
    var next := JobEffect(s, m).next;
    JobsAdvance(m, job, Guard(s, job.id));
    WorkOf(s.jobs, m.j);
    if next.Goes? {
      WorkOf(s.jobs[m.j := next.job], m.j);
      assert s.jobs[m.j := next.job] - {m.j} == s.jobs - {m.j};
    }
  }

  function JobMoves(moves: seq<Move>): nat {
    if moves == [] then 0 else (if JobMove(moves[0]) then 1 else 0) + JobMoves(moves[1..])
  }

  ghost predicate NoSubmit(moves: seq<Move>) {
    forall m | m in moves :: !m.Submit?
  }

  /** Between submissions the jobs make no more moves than they have in them, in whatever order. */
  lemma {:induction false} JobMovesAreBounded(s: State, moves: seq<Move>)
    requires IsRun(s, moves) && NoSubmit(moves)
    ensures JobMoves(moves) + Work(After(s, moves).jobs) <= Work(s.jobs)
    decreases |moves|
  {
    if moves != [] {
      assert moves[0] in moves;
      if JobMove(moves[0]) {
        JobMoveWorks(s, moves[0]);
      }
      JobMovesAreBounded(Do(s, moves[0]), moves[1..]);
    }
  }

  lemma {:induction false} RunsConcat(s: State, a: seq<Move>, b: seq<Move>)
    requires IsRun(s, a) && IsRun(After(s, a), b)
    ensures IsRun(s, a + b) && After(s, a + b) == After(After(s, a), b)
    decreases |a|
  {
    if a == [] {
      assert a + b == b;
    } else {
      assert (a + b)[1..] == a[1..] + b;
      RunsConcat(Do(s, a[0]), a[1..], b);
    }
  }

  lemma OneMove(s: State, m: Move)
    requires Enabled(s, m)
    ensures IsRun(s, [m]) && After(s, [m]) == Do(s, m)
  {
    assert [m][1..] == [];
    assert After(Do(s, m), []) == Do(s, m);
  }

  /** What a run without submissions, closing or cancellations leaves as it was. */
  predicate Kept(s: State, t: State) {
    && t.capacity == s.capacity && t.closing == s.closing
    && t.jobs.Keys + t.finished.Keys == s.jobs.Keys + s.finished.Keys
  }

  /** From any state the jobs can all come to their end, with no cancellation and no help from Close. */
  lemma Drain(s: State) returns (moves: seq<Move>)
    requires Inv(s) && 0 < s.capacity
    ensures IsRun(s, moves) && NoSubmit(moves)
    ensures After(s, moves).jobs == map[] && Inv(After(s, moves)) && Kept(s, After(s, moves))
    decreases Work(s.jobs)
  {
    moves := [];
    if s.jobs != map[] {
      var m := NextJobMove(s);
      MoveInv(s, m);
      JobMoveWorks(s, m);
      JobMoveKeeps(s, m);
      var rest := Drain(Do(s, m));
      moves := [m] + rest;
      OneMoveFirst(s, m, rest);
    }
  }

  lemma JobMoveKeeps(s: State, m: Move)
    requires JobMove(m) && Enabled(s, m)
    ensures Kept(s, Do(s, m))
  {
  }

  lemma OneMoveFirst(s: State, m: Move, rest: seq<Move>)
    requires Enabled(s, m) && IsRun(Do(s, m), rest)
    ensures IsRun(s, [m] + rest) && After(s, [m] + rest) == After(Do(s, m), rest)
  {
    OneMove(s, m);
    RunsConcat(s, [m], rest);
  }

  lemma {:induction false} SameCapacity(s: State, moves: seq<Move>)
    requires IsRun(s, moves)
    ensures After(s, moves).capacity == s.capacity
    decreases |moves|
  {
    if moves != [] {
      SameCapacity(Do(s, moves[0]), moves[1..]);
    }
  }

  /** Every finished job: refused inside submit without a report, dropped by Close without one, or reported once. */
  lemma ReportedOnce(capacity: int, moves: seq<Move>)
    requires IsRun(New(capacity), moves)
    ensures var s := After(New(capacity), moves);
            forall j | j in s.finished ::
              && s.finished[j].place in {Load, Swap, Leave}
              && s.finished[j].reports == if s.finished[j].place == Leave && !s.finished[j].dropped then 1 else 0
  {
    NewInv(capacity);
    RunInv(New(capacity), moves);
  }

  // ---- Close ----

  /** Close returns only when no goroutine of the executor is left. */
  lemma CloseDrains(capacity: int, moves: seq<Move>)
    requires IsRun(New(capacity), moves) && Enabled(After(New(capacity), moves), CloseReturn)
    ensures var s := After(New(capacity), moves);
            forall j | j in s.jobs :: s.jobs[j].place in {Load, Swap, Add}
  {
    NewInv(capacity);
    RunInv(New(capacity), moves);
    var s := After(New(capacity), moves);
    forall j | j in s.jobs
      ensures s.jobs[j].place in {Load, Swap, Add}
    {
      assert j !in Waited(s);
    }
  }

  /** A job is dropped only if Close was called. */
  lemma {:induction false} DroppedOnlyByClose(s: State, moves: seq<Move>)
    requires IsRun(s, moves) && NoneDropped(s)
    ensures NoneDropped(After(s, moves))
    decreases |moves|
  {
    if moves != [] {
      if JobMove(moves[0]) {
        DropsNothing(s, moves[0]);
      }
      DroppedOnlyByClose(Do(s, moves[0]), moves[1..]);
    }
  }

  ghost predicate NoneDropped(s: State) {
    s.closing == Open ==> forall j | j in s.jobs :: s.jobs[j].place != DropClear && !s.jobs[j].dropped
  }

  lemma DropsNothing(s: State, m: Move)
    requires JobMove(m) && Enabled(s, m) && NoneDropped(s)
    ensures NoneDropped(Apply(s, m.j, JobEffect(s, m)))
  {
  }

  /** Once Close was called it can always come to return: every job can end. */
  lemma CloseCanReturn(capacity: int, moves: seq<Move>)
    requires IsRun(New(capacity), moves) && After(New(capacity), moves).closing == Draining
    ensures exists more ::
              && IsRun(New(capacity), moves + more) && NoSubmit(more)
              && Enabled(After(New(capacity), moves + more), CloseReturn)
  {
    NewInv(capacity);
    RunInv(New(capacity), moves);
    SameCapacity(New(capacity), moves);
    var more := Drain(After(New(capacity), moves));
    RunsConcat(New(capacity), moves, more);
    assert Waited(After(New(capacity), moves + more)) == {};
  }

  /**
   Close does not keep a waiting submission from running, as its comment says it does: after the call, and after the
   return, the select may choose the slot exactly when fewer jobs hold one than there are.
   */
  lemma LateStartExactlyWithASlotFree(capacity: int, moves: seq<Move>, j: Jid)
    requires IsRun(New(capacity), moves) && After(New(capacity), moves).closing != Open
    requires j in After(New(capacity), moves).jobs && After(New(capacity), moves).jobs[j].place == Select
    ensures var s := After(New(capacity), moves);
            && (Enabled(s, TakeSlot(j)) <==> |SlotHolders(s)| < s.capacity)
            && (Enabled(s, TakeSlot(j)) ==> j in Running(Do(s, TakeSlot(j))))
  {
    NewInv(capacity);
    RunInv(New(capacity), moves);
  }

  /** A job that has taken the first `n` steps of a submission that nothing stands in the way of. */
  function Waiting(s: State, j: Jid, id: Id, guard: bool, waits: int, place: Place): State {
    s.(guards := s.guards[id := guard], waitGroup := s.waitGroup + waits,
       jobs := s.jobs[j := Job(id, true, place, 0, false)])
  }

  lemma TwoSteps(s: State, t: State, u: State, j: Jid)
    requires Enabled(s, Step(j)) && Do(s, Step(j)) == t && Enabled(t, Step(j)) && Do(t, Step(j)) == u
    ensures IsRun(s, [Step(j)] + [Step(j)]) && After(s, [Step(j)] + [Step(j)]) == u
  {
    OneMove(t, Step(j));
    OneMoveFirst(s, Step(j), [Step(j)]);
  }

  lemma SubmissionOwnsGuard(s: State, j: Jid, id: Id) returns (moves: seq<Move>)
    requires Enabled(s, Submit(j, id, true)) && Guard(s, id) != Some(true)
    ensures var submitted := Do(s, Submit(j, id, true));
            IsRun(submitted, moves) && After(submitted, moves) == Waiting(s, j, id, true, 0, Add)
  {
    var submitted := Do(s, Submit(j, id, true));
    var loaded := Waiting(s, j, id, false, 0, Swap);
    assert Do(submitted, Step(j)) == loaded;
    assert Do(loaded, Step(j)) == Waiting(s, j, id, true, 0, Add);
    TwoSteps(submitted, loaded, Waiting(s, j, id, true, 0, Add), j);
    moves := [Step(j)] + [Step(j)];
  }

  lemma SubmissionStarts(s: State, j: Jid, id: Id) returns (moves: seq<Move>)
    ensures var added := Waiting(s, j, id, true, 0, Add);
            IsRun(added, moves) && After(added, moves) == Waiting(s, j, id, true, 1, Select)
  {
    var added, spawned := Waiting(s, j, id, true, 0, Add), Waiting(s, j, id, true, 1, Spawn);
    assert Do(added, Step(j)) == spawned;
    assert Do(spawned, Step(j)) == Waiting(s, j, id, true, 1, Select);
    TwoSteps(added, spawned, Waiting(s, j, id, true, 1, Select), j);
    moves := [Step(j)] + [Step(j)];
  }

  /** A submission under a free guard comes to wait for a slot. */
  lemma SubmissionWaits(s: State, j: Jid, id: Id) returns (moves: seq<Move>)
    requires Enabled(s, Submit(j, id, true)) && Guard(s, id) != Some(true)
    ensures IsRun(s, moves) && After(s, moves) == Waiting(s, j, id, true, 1, Select)
  {
    var owns := SubmissionOwnsGuard(s, j, id);
    var starts := SubmissionStarts(s, j, id);
    RunsConcat(Do(s, Submit(j, id, true)), owns, starts);
    OneMoveFirst(s, Submit(j, id, true), owns + starts);
    moves := [Submit(j, id, true)] + (owns + starts);
  }

  /** With no other job left, a submission comes to run. */
  lemma SubmissionRuns(s: State, j: Jid, id: Id) returns (moves: seq<Move>)
    requires Inv(s) && 0 < s.capacity && s.jobs == map[] && j !in s.finished
    ensures IsRun(s, moves) && j in Running(After(s, moves)) && After(s, moves).closing == s.closing
  {
    assert SlotHolders(s) == {};
    var waits := SubmissionWaits(s, j, id);
    var t := After(s, waits);
    OneMove(t, TakeSlot(j));
    RunsConcat(s, waits, [TakeSlot(j)]);
    moves := waits + [TakeSlot(j)];
  }

  /**
   From every reachable state, before Close, during it or after its return, every new submission with a Run func
   has a continuation in which it runs.
   */
  lemma EverySubmissionCanRun(capacity: int, moves: seq<Move>, j: Jid, id: Id)
    requires IsRun(New(capacity), moves)
    requires Enabled(After(New(capacity), moves), Submit(j, id, true))
    ensures exists more ::
              && IsRun(New(capacity), moves + more)
              && After(New(capacity), moves + more).closing == After(New(capacity), moves).closing
              && j in Running(After(New(capacity), moves + more))
  {
    NewInv(capacity);
    RunInv(New(capacity), moves);
    SameCapacity(New(capacity), moves);
    var s := After(New(capacity), moves);
    var drained := Drain(s);
    var late := SubmissionRuns(After(s, drained), j, id);
    RunsConcat(s, drained, late);
    RunsConcat(New(capacity), moves, drained + late);
    assert After(New(capacity), moves + (drained + late)) == After(After(s, drained), late);
  }

  /** Close returns at once when nothing was submitted. */
  lemma CloseReturnsAtOnce(capacity: int)
    ensures var moves := [CloseCall] + [CloseReturn];
            IsRun(New(capacity), moves) && After(New(capacity), moves) == New(capacity).(closing := Closed)
  {
    OneMove(New(capacity).(closing := Draining), CloseReturn);
    OneMoveFirst(New(capacity), CloseCall, [CloseReturn]);
  }

  /** In particular after Close has returned: whatever ran before, a later submission can still run. */
  lemma RunsAfterClose(capacity: int, moves: seq<Move>, j: Jid, id: Id)
    requires IsRun(New(capacity), moves) && After(New(capacity), moves).closing == Closed
    requires Enabled(After(New(capacity), moves), Submit(j, id, true))
    ensures exists more ::
              && IsRun(New(capacity), moves + more)
              && After(New(capacity), moves + more).closing == Closed
              && j in Running(After(New(capacity), moves + more))
  {
    EverySubmissionCanRun(capacity, moves, j, id);
  }

  // ---- Which actions are run ----

  function If(b: bool): nat {
    if b then 1 else 0
  }

  predicate InRun(s: State, j: Jid) {
    j in s.jobs && s.jobs[j].place == Run
  }

  /** How often the job's Action.Run came to its end. */
  function Ran(s: State, moves: seq<Move>, j: Jid): nat
    requires IsRun(s, moves)
    decreases |moves|
  {
    if moves == [] then 0
    else If(moves[0] == Step(j) && InRun(s, j)) + Ran(Do(s, moves[0]), moves[1..], j)
  }

  /** How often the job took a slot. */
  function Taken(moves: seq<Move>, j: Jid): nat
    decreases |moves|
  {
    if moves == [] then 0 else If(moves[0] == TakeSlot(j)) + Taken(moves[1..], j)
  }

  lemma MoveBalance(s: State, m: Move, j: Jid)
    requires Enabled(s, m)
    ensures If(m == Step(j) && InRun(s, j)) + If(InRun(Do(s, m), j)) == If(InRun(s, j)) + If(m == TakeSlot(j))
  {
  }

  lemma {:induction false} RunsBalance(s: State, moves: seq<Move>, j: Jid)
    requires IsRun(s, moves)
    ensures Ran(s, moves, j) + If(InRun(After(s, moves), j)) == If(InRun(s, j)) + Taken(moves, j)
    decreases |moves|
  {
    if moves != [] {
      MoveBalance(s, moves[0], j);
      RunsBalance(Do(s, moves[0]), moves[1..], j);
    }
  }

  /** The job has not come past the select. */
  predicate Early(s: State, j: Jid) {
    if j in s.jobs then s.jobs[j].place in {Load, Swap, Add, Spawn, Select} else j !in s.finished
  }

  lemma {:induction false} TakesOneSlot(s: State, moves: seq<Move>, j: Jid)
    requires IsRun(s, moves)
    ensures Taken(moves, j) <= If(Early(s, j))
    decreases |moves|
  {
    if moves != [] {
      TakesOneSlot(Do(s, moves[0]), moves[1..], j);
    }
  }

  /** An action is run for a submission that takes a slot, once, and for no other. */
  lemma RunsExactlyOnce(capacity: int, moves: seq<Move>, j: Jid)
    requires IsRun(New(capacity), moves)
    ensures Ran(New(capacity), moves, j) + If(j in Running(After(New(capacity), moves))) == Taken(moves, j) <= 1
  {
    RunsBalance(New(capacity), moves, j);
    TakesOneSlot(New(capacity), moves, j);
  }

  ghost predicate RunFuncsOk(s: State) {
    && (forall j | j in s.jobs :: s.jobs[j].place == Load || s.jobs[j].hasRun)
    && (forall j | j in s.finished :: s.finished[j].place == Load <==> !s.finished[j].hasRun)
  }

  lemma {:induction false} RunFuncsStayOk(s: State, moves: seq<Move>)
    requires RunFuncsOk(s) && IsRun(s, moves)
    ensures RunFuncsOk(After(s, moves))
    decreases |moves|
  {
    if moves != [] {
      RunFuncsStayOk(Do(s, moves[0]), moves[1..]);
    }
  }

  /** An action without a Run func comes no further than the first check, and every other one does. */
  lemma NoRunFuncIsRefused(capacity: int, moves: seq<Move>)
    requires IsRun(New(capacity), moves)
    ensures var s := After(New(capacity), moves);
            && (forall j | j in s.jobs && !s.jobs[j].hasRun :: s.jobs[j].place == Load && j !in Running(s))
            && (forall j | j in s.finished :: s.finished[j].place == Load <==> !s.finished[j].hasRun)
  {
    RunFuncsStayOk(New(capacity), moves);
  }
}
