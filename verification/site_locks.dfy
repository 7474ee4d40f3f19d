/**
 The per-site lifecycle mutexes of internal/sites: `siteMutex` and the order in which the lifecycle
 operations take them, as interleaved atomic steps of any number of goroutines.
 */
module SiteLocks {

  type Id = string
  type Mutex = nat
  type Tid = nat

  /** The lifecycle operations. Ids named `child` or made by `createParent` are fresh UUIDs. */
  datatype Op =
    | AddSite(site: Id)
    | Locked(site: Id)                    // Start, Stop, Export, LAN, versions, SPX: one lock around everything
    | LockedDump(site: Id)                // Snapshot, RestoreSnapshot, ImportDB: one lock, with a dump under it
    | Delete(site: Id)
    | Clone(site: Id, child: Id)
    | CreateWorktree(parent: Id, createParent: bool, child: Id, cloneDB: bool)
    | Migrate(site: Id)

  /** What an operation does that the locks care about. */
  datatype Act =
    | Lock(id: Id)      // siteMutex(id).Lock()
    | Unlock(id: Id)
    | Create(id: Id)    // the row is inserted
    | Dump(id: Id)      // snapshotLocked
    | Work(id: Id)      // whatever else is done to the site: containers, files, its row changed or deleted
    | Cascade(id: Id)   // delete whatever worktree children the site has

  /** An operation's actions when nothing goes wrong. */
  function Script(op: Op): seq<Act> {
    match op
    case AddSite(s) => [Create(s)]
    case Locked(s) => Section(s, false)
    case LockedDump(s) => Section(s, true)
    case Delete(s) => [Cascade(s)] + Section(s, true)
    case Clone(s, c) => [Lock(s), Dump(s), Work(s), Create(c)] + Section(c, false) + [Unlock(s)]
    case CreateWorktree(p, createParent, c, cloneDB) =>
      (if createParent then [Create(p)] else []) + [Lock(p), Work(p), Create(c)] + WorktreeCalls(p, c, cloneDB)
    case Migrate(s) => Sections(s, [false, true, false, false, false, true, false])
  }

  /** One call that locks a site, perhaps dumps it, and does its work on it. */
  function Section(x: Id, dump: bool): seq<Act> {
    if dump then [Lock(x), Dump(x), Work(x), Unlock(x)] else [Lock(x), Work(x), Unlock(x)]
  }

  /** What a worktree creation does once the child's row is in: start the child, copy the parent's database over. */
  function WorktreeCalls(p: Id, c: Id, cloneDB: bool): seq<Act> {
    if cloneDB then Section(c, false) + [Dump(p)] + Section(c, false) + [Dump(c), Unlock(p)]
    else Section(c, false) + [Unlock(p)]
  }

  /** Locked sections of one site after each other; the flags say which of them take a dump. */
  function Sections(x: Id, dumps: seq<bool>): seq<Act> {
    if dumps == [] then [] else Section(x, dumps[0]) + Sections(x, dumps[1..])
  }

  /** The deletes a cascade runs, one child after the other. */
  function CascadeScript(children: seq<Id>): seq<Act> {
    if children == [] then [] else Script(Delete(children[0])) + CascadeScript(children[1..])
  }

  lemma SectionParts(x: Id, todo: seq<Act>)
    ensures Section(x, false) + todo == [Lock(x)] + ([Work(x)] + ([Unlock(x)] + todo))
    ensures Section(x, true) + todo == [Lock(x)] + ([Dump(x)] + ([Work(x)] + ([Unlock(x)] + todo)))
  {
  }

  lemma CloneParts(x: Id, c: Id)
    ensures Script(Clone(x, c))
         == [Lock(x)] + ([Dump(x)] + ([Work(x)] + ([Create(c)] + (Section(c, false) + [Unlock(x)]))))
  {
  }

  lemma WorktreeParts(p: Id, createParent: bool, c: Id, cloneDB: bool)
    ensures var rest := [Lock(p)] + ([Work(p)] + ([Create(c)] + WorktreeCalls(p, c, cloneDB)));
            Script(CreateWorktree(p, createParent, c, cloneDB)) == if createParent then [Create(p)] + rest else rest
  {
  }

  lemma WorktreeCallsParts(p: Id, c: Id)
    ensures WorktreeCalls(p, c, true)
         == Section(c, false) + ([Dump(p)] + (Section(c, false) + ([Dump(c)] + [Unlock(p)])))
  {
  }

  lemma Popped(held: seq<Id>, x: Id)
    ensures (held + [x])[..|held + [x]| - 1] == held
  {
  }

  /** How far a goroutine has come in `siteMutex`: not called, Load missed and a new mutex made, or mutex known. */
  datatype Lookup = NotStarted | Missed(candidate: Mutex) | Resolved(mutex: Mutex)

  /** A goroutine: what it still has to do, and the ids it holds, outermost first. */
  datatype Thread = Thread(todo: seq<Act>, lookup: Lookup, held: seq<Id>)

  /** `born` and `clock` stamp every site ever inserted; `owner` has the locked mutexes only. */
  datatype State = State(
    locks: map<Id, Mutex>, owner: map<Mutex, Tid>, threads: map<Tid, Thread>,
    born: map<Id, nat>, clock: nat, nextMutex: Mutex)

  datatype Move =
    | Spawn(t: Tid, op: Op)
    | Load(t: Tid)
    | LoadOrStore(t: Tid)
    | Acquire(t: Tid)
    | Release(t: Tid)
    | Insert(t: Tid)
    | TakeDump(t: Tid)
    | DoWork(t: Tid)
    | ReadChildren(t: Tid, children: seq<Id>)
    | SkipCall(t: Tid)      // a nested call returns before it takes its lock
    | Bail(t: Tid)          // an error return: only the deferred unlocks are left

  // ---- Operations as programs ----

  /** The sites an operation starts from; their rows were found before it began. */
  function Existing(op: Op): set<Id> {
    match op
    case AddSite(_) => {}
    case Locked(s) => {s}
    case LockedDump(s) => {s}
    case Delete(s) => {s}
    case Clone(s, _) => {s}
    case CreateWorktree(p, createParent, _, _) => if createParent then {} else {p}
    case Migrate(s) => {s}
  }

  function Made(op: Op): set<Id> {
    match op
    case AddSite(s) => {s}
    case Clone(_, c) => {c}
    case CreateWorktree(p, createParent, c, _) => if createParent then {p, c} else {c}
    case _ => {}
  }

  /** No goroutine is going to insert this id, and none has. */
  ghost predicate Unused(s: State, x: Id) {
    x !in s.born && forall t | t in s.threads :: Create(x) !in s.threads[t].todo
  }

  function Unwind(held: seq<Id>): seq<Act> {
    if held == [] then [] else [Unlock(held[|held| - 1])] + Unwind(held[..|held| - 1])
  }

  /** The length of a nested call that locks and unlocks one site, at the head of `todo`; 0 if there is none. */
  function CallLength(todo: seq<Act>): (n: nat)
    ensures n <= |todo|
  {
    if 3 <= |todo| && todo[0].Lock? && todo[..3] == Section(todo[0].id, false) then 3
    else if 4 <= |todo| && todo[0].Lock? && todo[..4] == Section(todo[0].id, true) then 4
    else 0
  }

  // ---- Steps ----

  predicate AtLock(s: State, t: Tid) {
    t in s.threads && s.threads[t].todo != [] && s.threads[t].todo[0].Lock?
  }

  ghost predicate CanSpawn(s: State, t: Tid, op: Op) {
    && t !in s.threads
    && Existing(op) <= s.born.Keys
    && (forall x | x in Made(op) :: Unused(s, x))
    && (op.Clone? ==> op.child != op.site)
    && (op.CreateWorktree? ==> op.child != op.parent)
  }

  ghost predicate Enabled(s: State, m: Move) {
    match m
    case Spawn(t, op) => CanSpawn(s, t, op)
    case Load(t) => AtLock(s, t) && s.threads[t].lookup == NotStarted
    case LoadOrStore(t) => AtLock(s, t) && s.threads[t].lookup.Missed?
    case Acquire(t) => AtLock(s, t) && s.threads[t].lookup.Resolved? && s.threads[t].lookup.mutex !in s.owner
    case Release(t) =>
      t in s.threads && s.threads[t].todo != [] && s.threads[t].todo[0].Unlock? && s.threads[t].todo[0].id in s.locks
    case Insert(t) => t in s.threads && s.threads[t].todo != [] && s.threads[t].todo[0].Create?
    case TakeDump(t) => t in s.threads && s.threads[t].todo != [] && s.threads[t].todo[0].Dump?
    case DoWork(t) => t in s.threads && s.threads[t].todo != [] && s.threads[t].todo[0].Work?
    case ReadChildren(t, cs) =>
      && t in s.threads && s.threads[t].todo != [] && s.threads[t].todo[0].Cascade?
      && forall c | c in cs :: c in s.born
    case SkipCall(t) => t in s.threads && s.threads[t].lookup == NotStarted && 0 < CallLength(s.threads[t].todo)
    case Bail(t) => t in s.threads && s.threads[t].todo != [] && s.threads[t].lookup == NotStarted
  }

  function With(s: State, t: Tid, th: Thread): State {
    s.(threads := s.threads[t := th])
  }

  function Tail(th: Thread): Thread
    requires th.todo != []
  {
    th.(todo := th.todo[1..])
  }

  /** siteLocks.Load: the mutex of the id if there is one, else a new one to offer. */
  function DoLoad(s: State, t: Tid): State
    requires AtLock(s, t)
  {
    var x := s.threads[t].todo[0].id;
    if x in s.locks then With(s, t, s.threads[t].(lookup := Resolved(s.locks[x])))
    else With(s, t, s.threads[t].(lookup := Missed(s.nextMutex))).(nextMutex := s.nextMutex + 1)
  }

  /** siteLocks.LoadOrStore: whoever comes first stores its mutex, the others take that one. */
  function DoLoadOrStore(s: State, t: Tid): State
    requires AtLock(s, t) && s.threads[t].lookup.Missed?
  {
    var x, c := s.threads[t].todo[0].id, s.threads[t].lookup.candidate;
    if x in s.locks then With(s, t, s.threads[t].(lookup := Resolved(s.locks[x])))
    else With(s, t, s.threads[t].(lookup := Resolved(c))).(locks := s.locks[x := c])
  }

  function DoAcquire(s: State, t: Tid): State
    requires AtLock(s, t) && s.threads[t].lookup.Resolved?
  {
    var th := s.threads[t];
    With(s, t, Thread(th.todo[1..], NotStarted, th.held + [th.todo[0].id])).(owner := s.owner[th.lookup.mutex := t])
  }

  function DoRelease(s: State, t: Tid): State
    requires t in s.threads && s.threads[t].todo != [] && s.threads[t].todo[0].Unlock?
    requires s.threads[t].todo[0].id in s.locks
  {
    var th := s.threads[t];
    var held := if th.held == [] then [] else th.held[..|th.held| - 1];
    With(s, t, Thread(th.todo[1..], NotStarted, held)).(owner := s.owner - {s.locks[th.todo[0].id]})
  }

  function DoInsert(s: State, t: Tid): State
    requires t in s.threads && s.threads[t].todo != [] && s.threads[t].todo[0].Create?
  {
    With(s, t, Tail(s.threads[t])).(born := s.born[s.threads[t].todo[0].id := s.clock], clock := s.clock + 1)
  }

  function Do(s: State, m: Move): State
    requires Enabled(s, m)
  {
    match m
    case Spawn(t, op) => With(s, t, Thread(Script(op), NotStarted, []))
    case Load(t) => DoLoad(s, t)
    case LoadOrStore(t) => DoLoadOrStore(s, t)
    case Acquire(t) => DoAcquire(s, t)
    case Release(t) => DoRelease(s, t)
    case Insert(t) => DoInsert(s, t)
    case TakeDump(t) => With(s, t, Tail(s.threads[t]))
    case DoWork(t) => With(s, t, Tail(s.threads[t]))
    case ReadChildren(t, cs) => With(s, t, s.threads[t].(todo := CascadeScript(cs) + s.threads[t].todo[1..]))
    case SkipCall(t) => With(s, t, s.threads[t].(todo := s.threads[t].todo[CallLength(s.threads[t].todo)..]))
    case Bail(t) => With(s, t, s.threads[t].(todo := Unwind(s.threads[t].held)))
  }

  ghost predicate Initial(s: State) {
    && s.locks == map[] && s.owner == map[] && s.threads == map[]
    && forall x | x in s.born :: s.born[x] < s.clock
  }

  /** Every move of the run is enabled where it is made. */
  ghost predicate IsRun(s: State, moves: seq<Move>)
    decreases |moves|
  {
    moves == [] || (Enabled(s, moves[0]) && IsRun(Do(s, moves[0]), moves[1..]))
  }

  function After(s: State, moves: seq<Move>): State
    requires IsRun(s, moves)
    decreases |moves|
  {
    if moves == [] then s else After(Do(s, moves[0]), moves[1..])
  }

  // ---- The lock order ----

  /**
   What is left of a program respects the order of creation: a site is locked only inside locks of older sites,
   locks are released innermost first, none is left over, and a cascade runs with no lock held.
   */
  ghost predicate Ordered(held: seq<Id>, todo: seq<Act>, born: map<Id, nat>, clock: nat)
    decreases |todo|
  {
    if todo == [] then held == []
    else
      match todo[0]
      case Lock(x) =>
        && x in born
        && (forall h | h in held :: h in born && born[h] < born[x])
        && Ordered(held + [x], todo[1..], born, clock)
      case Unlock(x) =>
        held != [] && held[|held| - 1] == x && Ordered(held[..|held| - 1], todo[1..], born, clock)
      case Create(x) => x !in born && Ordered(held, todo[1..], born[x := clock], clock + 1)
      case Dump(_) => Ordered(held, todo[1..], born, clock)
      case Work(_) => Ordered(held, todo[1..], born, clock)
      case Cascade(_) => held == [] && Ordered(held, todo[1..], born, clock)
  }

  ghost predicate Stamped(born: map<Id, nat>, clock: nat) {
    forall x | x in born :: born[x] < clock
  }

  lemma {:induction false} CreatesAreUnborn(held: seq<Id>, todo: seq<Act>, born: map<Id, nat>, clock: nat, x: Id)
    requires Ordered(held, todo, born, clock)
    requires Create(x) in todo
    ensures x !in born
    decreases |todo|
  {
    if todo[0] != Create(x) {
      assert Create(x) in todo[1..];
      match todo[0] {
        case Lock(y) => CreatesAreUnborn(held + [y], todo[1..], born, clock, x);
        case Unlock(_) => CreatesAreUnborn(held[..|held| - 1], todo[1..], born, clock, x);
        case Create(y) => CreatesAreUnborn(held, todo[1..], born[y := clock], clock + 1, x);
        case Dump(_) => CreatesAreUnborn(held, todo[1..], born, clock, x);
        case Work(_) => CreatesAreUnborn(held, todo[1..], born, clock, x);
        case Cascade(_) => CreatesAreUnborn(held, todo[1..], born, clock, x);
      }
    }
  }

  /** Insertions made elsewhere do not disturb a program that does not make them itself. */
  lemma {:induction false} OrderedElsewhere(held: seq<Id>, todo: seq<Act>,
                                            born: map<Id, nat>, clock: nat, born': map<Id, nat>, clock': nat)
    requires Ordered(held, todo, born, clock)
    requires Stamped(born, clock) && Stamped(born', clock')
    requires born.Keys <= born'.Keys
    requires forall a, b | a in born && b in born && born[a] < born[b] :: born'[a] < born'[b]
    requires forall x | Create(x) in todo :: x !in born'
    ensures Ordered(held, todo, born', clock')
    decreases |todo|
  {
    if todo != [] {
      var rest := todo[1..];
      match todo[0] {
        case Lock(x) => OrderedElsewhere(held + [x], rest, born, clock, born', clock');
        case Unlock(_) => OrderedElsewhere(held[..|held| - 1], rest, born, clock, born', clock');
        case Create(x) =>
          assert todo[0] in todo;
          forall y | Create(y) in rest
            ensures y !in born'[x := clock']
          {
            CreatesAreUnborn(held, rest, born[x := clock], clock + 1, y);
          }
          OrderedElsewhere(held, rest, born[x := clock], clock + 1, born'[x := clock'], clock' + 1);
        case Dump(_) => OrderedElsewhere(held, rest, born, clock, born', clock');
        case Work(_) => OrderedElsewhere(held, rest, born, clock, born', clock');
        case Cascade(_) => OrderedElsewhere(held, rest, born, clock, born', clock');
      }
    }
  }

  // ---- The invariant ----

  /** `t` holds what it says it holds, in order of creation. */
  ghost predicate HoldsOk(s: State, t: Tid, held: seq<Id>) {
    && (forall h | h in held :: h in s.born && h in s.locks && s.locks[h] in s.owner && s.owner[s.locks[h]] == t)
    && (forall i, j | 0 <= i < j < |held| :: s.born[held[i]] < s.born[held[j]])
  }

  ghost predicate LookupOk(s: State, th: Thread) {
    match th.lookup
    case NotStarted => true
    case Missed(c) => th.todo != [] && th.todo[0].Lock? && c < s.nextMutex && forall x | x in s.locks :: s.locks[x] != c
    case Resolved(m) => th.todo != [] && th.todo[0].Lock? && th.todo[0].id in s.locks && s.locks[th.todo[0].id] == m
  }

  ghost predicate ThreadOk(s: State, t: Tid, th: Thread) {
    && Ordered(th.held, th.todo, s.born, s.clock)
    && HoldsOk(s, t, th.held)
    && LookupOk(s, th)
  }

  /** One mutex per id, and every locked mutex is held, under its id, by the goroutine that locked it. */
  ghost predicate MutexesOk(s: State) {
    && (forall x, y | x in s.locks && y in s.locks && s.locks[x] == s.locks[y] :: x == y)
    && (forall x | x in s.locks :: s.locks[x] < s.nextMutex)
    && (forall m | m in s.owner :: s.owner[m] in s.threads
          && exists h :: h in s.threads[s.owner[m]].held && h in s.locks && s.locks[h] == m)
  }

  /** Fresh ids and fresh mutexes are not shared between goroutines. */
  ghost predicate FreshOk(s: State) {
    && (forall t, u, x | t in s.threads && u in s.threads && t != u && Create(x) in s.threads[t].todo ::
          Create(x) !in s.threads[u].todo)
    && (forall t, u | t in s.threads && u in s.threads && t != u
          && s.threads[t].lookup.Missed? && s.threads[u].lookup.Missed? ::
          s.threads[t].lookup.candidate != s.threads[u].lookup.candidate)
  }

  ghost predicate ThreadsOk(s: State) {
    forall t | t in s.threads :: ThreadOk(s, t, s.threads[t])
  }

  ghost predicate Inv(s: State) {
    Stamped(s.born, s.clock) && MutexesOk(s) && FreshOk(s) && ThreadsOk(s)
  }

  lemma InitialInv(s: State)
    requires Initial(s)
    ensures Inv(s)
  {
  }

  /** Replacing one goroutine's program keeps the invariant if the new program is in order and makes nothing new. */
  lemma ReplaceProgram(s: State, t: Tid, th: Thread)
    requires Inv(s) && t in s.threads && th.held == s.threads[t].held && th.lookup == NotStarted
    requires Ordered(th.held, th.todo, s.born, s.clock)
    requires forall x | Create(x) in th.todo :: Create(x) in s.threads[t].todo
    ensures Inv(With(s, t, th))
  {
    var s' := With(s, t, th);
    forall u | u in s'.threads
      ensures ThreadOk(s', u, s'.threads[u])
    {
      assert ThreadOk(s, u, s.threads[u]);
      OthersStay(s, s', u, if u == t then th else s.threads[u]);
    }
    SameHeldMutexes(s, s');
    OneThreadFresh(s, s', t);
  }

  lemma SameHeldMutexes(s: State, s': State)
    requires MutexesOk(s) && s' == s.(threads := s'.threads)
    requires forall u | u in s.threads :: u in s'.threads && s'.threads[u].held == s.threads[u].held
    ensures MutexesOk(s')
  {
  }

  lemma {:induction false} UnwindOrdered(held: seq<Id>, born: map<Id, nat>, clock: nat)
    ensures Ordered(held, Unwind(held), born, clock)
    ensures forall x :: Create(x) !in Unwind(held)
  {
    if held != [] {
      UnwindOrdered(held[..|held| - 1], born, clock);
    }
  }

  /** A whole locked section, with or without a dump, in front of an ordered program. */
  lemma SectionOrdered(x: Id, dump: bool, held: seq<Id>, todo: seq<Act>, born: map<Id, nat>, clock: nat)
    requires x in born && forall h | h in held :: h in born && born[h] < born[x]
    requires Ordered(held, todo, born, clock)
    ensures Ordered(held, Section(x, dump) + todo, born, clock)
  {
    var rest := [Work(x)] + ([Unlock(x)] + todo);
    UnlockHead(x, held, todo, born, clock);
    WorkHead(x, held + [x], [Unlock(x)] + todo, born, clock);
    if dump {
      DumpHead(x, held + [x], rest, born, clock);
      LockHead(x, held, [Dump(x)] + rest, born, clock);
      assert Section(x, dump) + todo == [Lock(x)] + ([Dump(x)] + rest);
    } else {
      LockHead(x, held, rest, born, clock);
      assert Section(x, dump) + todo == [Lock(x)] + rest;
    }
  }

  lemma CascadeHead(c: Id, todo: seq<Act>, born: map<Id, nat>, clock: nat)
    requires Ordered([], todo, born, clock)
    ensures Ordered([], [Cascade(c)] + todo, born, clock)
  {
    assert ([Cascade(c)] + todo)[1..] == todo;
  }

  /** A cascade's program, child by child. */
  lemma CascadeScriptSplits(cs: seq<Id>, todo: seq<Act>)
    requires cs != []
    ensures CascadeScript(cs) + todo
         == [Cascade(cs[0])] + (Section(cs[0], true) + (CascadeScript(cs[1..]) + todo))
  {
  }

  lemma {:induction false} CascadeOrdered(cs: seq<Id>, todo: seq<Act>, born: map<Id, nat>, clock: nat)
    requires forall c | c in cs :: c in born
    requires Ordered([], todo, born, clock)
    ensures Ordered([], CascadeScript(cs) + todo, born, clock)
  {
    if cs == [] {
      assert CascadeScript(cs) + todo == todo;
    } else {
      var c, rest := cs[0], CascadeScript(cs[1..]) + todo;
      CascadeOrdered(cs[1..], todo, born, clock);
      CascadedDelete(c, rest, born, clock);
      CascadeScriptSplits(cs, todo);
    }
  }

  lemma CascadedDelete(c: Id, rest: seq<Act>, born: map<Id, nat>, clock: nat)
    requires c in born && Ordered([], rest, born, clock)
    ensures Ordered([], [Cascade(c)] + (Section(c, true) + rest), born, clock)
  {
    SectionOrdered(c, true, [], rest, born, clock);
    CascadeHead(c, Section(c, true) + rest, born, clock);
  }

  /** What a skipped call leaves out is a whole section. */
  lemma SkippedSection(todo: seq<Act>)
    requires 0 < CallLength(todo)
    ensures todo[0].Lock?
    ensures exists dump :: todo == Section(todo[0].id, dump) + todo[CallLength(todo)..]
  {
    assert todo == todo[..CallLength(todo)] + todo[CallLength(todo)..];
  }

  lemma ActOrdered(held: seq<Id>, act: Act, todo: seq<Act>, born: map<Id, nat>, clock: nat)
    requires Ordered(held, [act] + todo, born, clock)
    ensures match act
            case Lock(x) => Ordered(held + [x], todo, born, clock)
            case Unlock(x) => held != [] && Ordered(held[..|held| - 1], todo, born, clock)
            case Create(x) => Ordered(held, todo, born[x := clock], clock + 1)
            case _ => Ordered(held, todo, born, clock)
  {
    assert ([act] + todo)[1..] == todo;
  }

  lemma SectionTail(x: Id, dump: bool, held: seq<Id>, todo: seq<Act>, born: map<Id, nat>, clock: nat)
    requires Ordered(held, Section(x, dump) + todo, born, clock)
    ensures Ordered(held, todo, born, clock)
  {
    var inner, last := held + [x], [Unlock(x)] + todo;
    SectionParts(x, todo);
    Popped(held, x);
    if dump {
      ActOrdered(held, Lock(x), [Dump(x)] + ([Work(x)] + last), born, clock);
      ActOrdered(inner, Dump(x), [Work(x)] + last, born, clock);
    } else {
      ActOrdered(held, Lock(x), [Work(x)] + last, born, clock);
    }
    ActOrdered(inner, Work(x), last, born, clock);
    ActOrdered(inner, Unlock(x), todo, born, clock);
  }

  lemma SkippedOrdered(held: seq<Id>, todo: seq<Act>, born: map<Id, nat>, clock: nat)
    requires Ordered(held, todo, born, clock) && 0 < CallLength(todo)
    ensures Ordered(held, todo[CallLength(todo)..], born, clock)
  {
    SkippedSection(todo);
    var dump :| todo == Section(todo[0].id, dump) + todo[CallLength(todo)..];
    SectionTail(todo[0].id, dump, held, todo[CallLength(todo)..], born, clock);
  }

  lemma {:induction false} CascadeCreatesNothing(cs: seq<Id>, x: Id)
    ensures Create(x) !in CascadeScript(cs)
  {
    if cs != [] {
      CascadeCreatesNothing(cs[1..], x);
    }
  }

  // ---- Every move keeps the invariant ----

  lemma TakeDumpInv(s: State, t: Tid)
    requires Inv(s) && Enabled(s, TakeDump(t))
    ensures Inv(Do(s, TakeDump(t)))
  {
    var th := s.threads[t];
    assert ThreadOk(s, t, th);
    ReplaceProgram(s, t, Tail(th));
  }

  lemma DoWorkInv(s: State, t: Tid)
    requires Inv(s) && Enabled(s, DoWork(t))
    ensures Inv(Do(s, DoWork(t)))
  {
    var th := s.threads[t];
    assert ThreadOk(s, t, th);
    ReplaceProgram(s, t, Tail(th));
  }

  lemma ReadChildrenInv(s: State, t: Tid, cs: seq<Id>)
    requires Inv(s) && Enabled(s, ReadChildren(t, cs))
    ensures Inv(Do(s, ReadChildren(t, cs)))
  {
    var th := s.threads[t];
    assert ThreadOk(s, t, th);
    CascadeOrdered(cs, th.todo[1..], s.born, s.clock);
    forall x | Create(x) in CascadeScript(cs) + th.todo[1..]
      ensures Create(x) in th.todo
    {
      CascadeCreatesNothing(cs, x);
    }
    ReplaceProgram(s, t, th.(todo := CascadeScript(cs) + th.todo[1..]));
  }

  lemma SkipCallInv(s: State, t: Tid)
    requires Inv(s) && Enabled(s, SkipCall(t))
    ensures Inv(Do(s, SkipCall(t)))
  {
    var th := s.threads[t];
    assert ThreadOk(s, t, th);
    SkippedOrdered(th.held, th.todo, s.born, s.clock);
    ReplaceProgram(s, t, th.(todo := th.todo[CallLength(th.todo)..]));
  }

  lemma BailInv(s: State, t: Tid)
    requires Inv(s) && Enabled(s, Bail(t))
    ensures Inv(Do(s, Bail(t)))
  {
    var th := s.threads[t];
    UnwindOrdered(th.held, s.born, s.clock);
    ReplaceProgram(s, t, th.(todo := Unwind(th.held)));
  }

  lemma ProgramMoveInv(s: State, m: Move)
    requires Inv(s) && Enabled(s, m)
    requires m.TakeDump? || m.DoWork? || m.ReadChildren? || m.SkipCall? || m.Bail?
    ensures Inv(Do(s, m))
  {
    match m {
      case TakeDump(t) => TakeDumpInv(s, t);
      case DoWork(t) => DoWorkInv(s, t);
      case ReadChildren(t, cs) => ReadChildrenInv(s, t, cs);
      case SkipCall(t) => SkipCallInv(s, t);
      case Bail(t) => BailInv(s, t);
    }
  }

  /** What another goroutine needs of a step that inserts no row. */
  lemma OthersStay(s: State, s': State, u: Tid, th: Thread)
    requires ThreadOk(s, u, th)
    requires s'.born == s.born && s'.clock == s.clock && s.nextMutex <= s'.nextMutex
    requires forall x | x in s.locks :: x in s'.locks && s'.locks[x] == s.locks[x]
    requires forall h | h in th.held :: s.locks[h] in s'.owner && s'.owner[s.locks[h]] == u
    requires th.lookup.Missed? ==> forall x | x in s'.locks :: s'.locks[x] != th.lookup.candidate
    ensures ThreadOk(s', u, th)
  {
  }

  lemma LoadInv(s: State, t: Tid)
    requires Inv(s) && Enabled(s, Load(t))
    ensures Inv(DoLoad(s, t))
  {
    var s' := DoLoad(s, t);
    LookupThreads(s, s', t);
    LookupMutexes(s, s', t);
    NewCandidateFresh(s, s', t);
  }

  /** A step of `siteMutex`: at most it adds one mutex to the map, and only its own goroutine changes. */
  ghost predicate LookupStep(s: State, s': State, t: Tid) {
    && t in s.threads && t in s'.threads
    && s'.threads == s.threads[t := s'.threads[t]]
    && s'.threads[t].todo == s.threads[t].todo && s'.threads[t].held == s.threads[t].held
    && s'.owner == s.owner && s'.born == s.born && s'.clock == s.clock && s.nextMutex <= s'.nextMutex
    && (forall x | x in s.locks :: x in s'.locks && s'.locks[x] == s.locks[x])
  }

  lemma LookupThreads(s: State, s': State, t: Tid)
    requires ThreadsOk(s) && LookupStep(s, s', t) && LookupOk(s', s'.threads[t])
    requires forall u | u in s.threads && u != t && s.threads[u].lookup.Missed? ::
               forall x | x in s'.locks :: s'.locks[x] != s.threads[u].lookup.candidate
    ensures ThreadsOk(s')
  {
    forall u | u in s'.threads
      ensures ThreadOk(s', u, s'.threads[u])
    {
      assert ThreadOk(s, u, s.threads[u]);
      OthersStay(s, s', u, if u == t then s.threads[u].(lookup := NotStarted) else s.threads[u]);
    }
  }

  lemma LookupMutexes(s: State, s': State, t: Tid)
    requires MutexesOk(s) && LookupStep(s, s', t)
    requires forall x, y | x in s'.locks && y in s'.locks && s'.locks[x] == s'.locks[y] :: x == y
    requires forall x | x in s'.locks :: s'.locks[x] < s'.nextMutex
    ensures MutexesOk(s')
  {
    forall m | m in s'.owner
      ensures exists h :: h in s'.threads[s'.owner[m]].held && h in s'.locks && s'.locks[h] == m
    {
      var h :| h in s.threads[s.owner[m]].held && h in s.locks && s.locks[h] == m;
      assert h in s'.threads[s'.owner[m]].held;
    }
  }

  /** A mutex just made is nobody else's candidate. */
  lemma NewCandidateFresh(s: State, s': State, t: Tid)
    requires FreshOk(s) && ThreadsOk(s) && t in s.threads && t in s'.threads
    requires s'.threads == s.threads[t := s'.threads[t]] && s'.threads[t].todo == s.threads[t].todo
    requires s'.threads[t].lookup.Missed? ==> s'.threads[t].lookup.candidate == s.nextMutex
    ensures FreshOk(s')
  {
    assert forall u | u in s.threads :: LookupOk(s, s.threads[u]);
  }

  lemma LoadOrStoreInv(s: State, t: Tid)
    requires Inv(s) && Enabled(s, LoadOrStore(t))
    ensures Inv(DoLoadOrStore(s, t))
  {
    var s' := DoLoadOrStore(s, t);
    assert ThreadOk(s, t, s.threads[t]);
    LookupThreads(s, s', t);
    LookupMutexes(s, s', t);
    OneThreadFresh(s, s', t);
  }

  /** A step that only shortens one goroutine's program shares nothing new. */
  lemma OneThreadFresh(s: State, s': State, t: Tid)
    requires FreshOk(s) && t in s.threads && t in s'.threads
    requires s'.threads == s.threads[t := s'.threads[t]]
    requires !s'.threads[t].lookup.Missed?
    requires forall x | Create(x) in s'.threads[t].todo :: Create(x) in s.threads[t].todo
    ensures FreshOk(s')
  {
  }

  lemma AcquireInv(s: State, t: Tid)
    requires Inv(s) && Enabled(s, Acquire(t))
    ensures Inv(DoAcquire(s, t))
  {
    var s' := DoAcquire(s, t);
    AcquireThreads(s, t);
    AcquireMutexes(s, t);
    OneThreadFresh(s, s', t);
  }

  lemma AcquirerOk(s: State, t: Tid, th: Thread)
    requires ThreadOk(s, t, th) && Enabled(s, Acquire(t)) && th == s.threads[t]
    ensures ThreadOk(DoAcquire(s, t), t, DoAcquire(s, t).threads[t])
  {
    assert Ordered(th.held + [th.todo[0].id], th.todo[1..], s.born, s.clock);
    assert HoldsOk(DoAcquire(s, t), t, th.held + [th.todo[0].id]);
  }

  lemma AcquireThreads(s: State, t: Tid)
    requires ThreadsOk(s) && MutexesOk(s) && Enabled(s, Acquire(t))
    ensures ThreadsOk(DoAcquire(s, t))
  {
    var s' := DoAcquire(s, t);
    var th := s.threads[t];
    AcquirerOk(s, t, th);
    forall u | u in s'.threads && u != t
      ensures ThreadOk(s', u, s'.threads[u])
    {
      OthersStay(s, s', u, s.threads[u]);
    }
  }

  lemma AcquireMutexes(s: State, t: Tid)
    requires ThreadsOk(s) && MutexesOk(s) && Enabled(s, Acquire(t))
    ensures MutexesOk(DoAcquire(s, t))
  {
    var s' := DoAcquire(s, t);
    var th := s.threads[t];
    assert LookupOk(s, th);
    forall m | m in s'.owner
      ensures s'.owner[m] in s'.threads
      ensures exists h :: h in s'.threads[s'.owner[m]].held && h in s'.locks && s'.locks[h] == m
    {
      if m == th.lookup.mutex {
        assert th.todo[0].id in s'.threads[t].held;
      } else {
        var h :| h in s.threads[s.owner[m]].held && h in s.locks && s.locks[h] == m;
        assert h in s'.threads[s'.owner[m]].held;
      }
    }
  }

  lemma ReleaseInv(s: State, t: Tid)
    requires Inv(s) && Enabled(s, Release(t))
    ensures Inv(DoRelease(s, t))
  {
    var s' := DoRelease(s, t);
    ReleaseThreads(s, t);
    ReleaseMutexes(s, t);
    OneThreadFresh(s, s', t);
  }

  /** The innermost lock is not also held further out. */
  lemma InnermostOnce(s: State, t: Tid, held: seq<Id>)
    requires HoldsOk(s, t, held) && held != []
    ensures held[|held| - 1] !in held[..|held| - 1]
    ensures HoldsOk(s, t, held[..|held| - 1])
  {
    var rest := held[..|held| - 1];
    assert forall i | 0 <= i < |rest| :: rest[i] == held[i];
  }

  /** Dropping the innermost lock leaves the goroutine owning the rest. */
  lemma ReleaseHeld(s: State, t: Tid, held: seq<Id>, x: Id)
    requires MutexesOk(s) && HoldsOk(s, t, held) && held != [] && held[|held| - 1] == x
    ensures x in s.locks && s.locks[x] in s.owner && s.owner[s.locks[x]] == t
    ensures HoldsOk(s.(owner := s.owner - {s.locks[x]}), t, held[..|held| - 1])
  {
    InnermostOnce(s, t, held);
  }

  /** Nobody else's locks are touched by a release. */
  lemma OthersKeepOnRelease(s: State, s': State, t: Tid, x: Id, u: Tid, th: Thread)
    requires MutexesOk(s) && ThreadOk(s, u, th) && u != t
    requires x in s.locks && s.locks[x] in s.owner && s.owner[s.locks[x]] == t
    requires s' == s.(threads := s'.threads, owner := s.owner - {s.locks[x]})
    ensures ThreadOk(s', u, th)
  {
    OthersStay(s, s', u, th);
  }

  lemma ReleaserOk(s: State, t: Tid, th: Thread)
    requires MutexesOk(s) && ThreadOk(s, t, th) && Enabled(s, Release(t)) && th == s.threads[t]
    ensures th.todo[0].id in s.locks && s.locks[th.todo[0].id] in s.owner && s.owner[s.locks[th.todo[0].id]] == t
    ensures ThreadOk(DoRelease(s, t), t, DoRelease(s, t).threads[t])
  {
    ReleaseHeld(s, t, th.held, th.todo[0].id);
  }

  /** The mutex being released is the one its holder locked, and only this holder has it. */
  lemma ReleaseThreads(s: State, t: Tid)
    requires ThreadsOk(s) && MutexesOk(s) && Enabled(s, Release(t))
    ensures ThreadsOk(DoRelease(s, t))
  {
    var s' := DoRelease(s, t);
    var th := s.threads[t];
    ReleaserOk(s, t, th);
    forall u | u in s'.threads && u != t
      ensures ThreadOk(s', u, s'.threads[u])
    {
      OthersKeepOnRelease(s, s', t, th.todo[0].id, u, s.threads[u]);
    }
  }

  /** A mutex some goroutine locked is held by it under an id. */
  ghost predicate OwnedUnder(s: State, m: Mutex, h: Id)
    requires m in s.owner
  {
    && s.owner[m] in s.threads
    && h in s.threads[s.owner[m]].held && h in s.locks && s.locks[h] == m
  }

  lemma InnermostIsReleased(s: State, t: Tid, th: Thread)
    requires ThreadOk(s, t, th) && th.todo != [] && th.todo[0].Unlock?
    ensures th.held != [] && th.held == th.held[..|th.held| - 1] + [th.todo[0].id]
  {
  }

  /** Every other mutex stays locked by whoever holds it. */
  lemma OtherMutexKept(s: State, t: Tid, m: Mutex, h: Id)
    requires Enabled(s, Release(t)) && m in DoRelease(s, t).owner && OwnedUnder(s, m, h)
    requires var th := s.threads[t]; th.held != [] && th.held == th.held[..|th.held| - 1] + [th.todo[0].id]
    ensures OwnedUnder(DoRelease(s, t), m, h)
  {
    var th := s.threads[t];
    assert h != th.todo[0].id;
    assert s.owner[m] == t ==> h in th.held[..|th.held| - 1];
  }

  lemma ReleaseMutexes(s: State, t: Tid)
    requires ThreadsOk(s) && MutexesOk(s) && Enabled(s, Release(t))
    ensures MutexesOk(DoRelease(s, t))
  {
    var s' := DoRelease(s, t);
    InnermostIsReleased(s, t, s.threads[t]);
    forall m | m in s'.owner
      ensures s'.owner[m] in s'.threads
      ensures exists h :: h in s'.threads[s'.owner[m]].held && h in s'.locks && s'.locks[h] == m
    {
      var h :| h in s.threads[s.owner[m]].held && h in s.locks && s.locks[h] == m;
      OtherMutexKept(s, t, m, h);
    }
  }

  /** Another goroutine's program, across an insertion it does not make. */
  lemma OthersStayOnInsert(s: State, s': State, x: Id, u: Tid, th: Thread)
    requires ThreadOk(s, u, th) && Stamped(s.born, s.clock)
    requires x !in s.born && Create(x) !in th.todo
    requires s' == s.(threads := s'.threads, born := s.born[x := s.clock], clock := s.clock + 1)
    ensures ThreadOk(s', u, th)
  {
    forall y | Create(y) in th.todo
      ensures y !in s'.born
    {
      CreatesAreUnborn(th.held, th.todo, s.born, s.clock, y);
    }
    OrderedElsewhere(th.held, th.todo, s.born, s.clock, s'.born, s'.clock);
  }

  lemma InsertInv(s: State, t: Tid)
    requires Inv(s) && Enabled(s, Insert(t))
    ensures Inv(DoInsert(s, t))
  {
    var s' := DoInsert(s, t);
    InsertThreads(s, t);
    InsertMutexes(s, t);
    OneThreadFresh(s, s', t);
  }

  lemma InsertMutexes(s: State, t: Tid)
    requires MutexesOk(s) && Enabled(s, Insert(t))
    ensures MutexesOk(DoInsert(s, t))
  {
    var s' := DoInsert(s, t);
    forall m | m in s'.owner
      ensures s'.owner[m] in s'.threads
      ensures exists h :: h in s'.threads[s'.owner[m]].held && h in s'.locks && s'.locks[h] == m
    {
      var h :| h in s.threads[s.owner[m]].held && h in s.locks && s.locks[h] == m;
      assert h in s'.threads[s'.owner[m]].held;
    }
  }

  lemma InserterOk(s: State, t: Tid, th: Thread)
    requires ThreadOk(s, t, th) && Enabled(s, Insert(t)) && th == s.threads[t] && Stamped(s.born, s.clock)
    ensures Create(th.todo[0].id) in th.todo && th.todo[0].id !in s.born
    ensures ThreadOk(DoInsert(s, t), t, DoInsert(s, t).threads[t])
  {
    var s' := DoInsert(s, t);
    assert Ordered(th.held, th.todo[1..], s'.born, s'.clock);
    assert HoldsOk(s', t, th.held);
  }

  lemma InsertThreads(s: State, t: Tid)
    requires Inv(s) && Enabled(s, Insert(t))
    ensures ThreadsOk(DoInsert(s, t))
  {
    var s' := DoInsert(s, t);
    var th := s.threads[t];
    var x := th.todo[0].id;
    InserterOk(s, t, th);
    forall u | u in s'.threads && u != t
      ensures ThreadOk(s', u, s'.threads[u])
    {
      OthersStayOnInsert(s, s', x, u, s.threads[u]);
    }
  }

  // ---- Every operation's program respects the order ----

  lemma LockHead(x: Id, held: seq<Id>, todo: seq<Act>, born: map<Id, nat>, clock: nat)
    requires x in born && forall h | h in held :: h in born && born[h] < born[x]
    requires Ordered(held + [x], todo, born, clock)
    ensures Ordered(held, [Lock(x)] + todo, born, clock)
  {
    assert ([Lock(x)] + todo)[1..] == todo;
  }

  lemma UnlockHead(x: Id, held: seq<Id>, todo: seq<Act>, born: map<Id, nat>, clock: nat)
    requires Ordered(held, todo, born, clock)
    ensures Ordered(held + [x], [Unlock(x)] + todo, born, clock)
  {
    assert ([Unlock(x)] + todo)[1..] == todo;
    assert (held + [x])[..|held + [x]| - 1] == held;
  }

  lemma CreateHead(x: Id, held: seq<Id>, todo: seq<Act>, born: map<Id, nat>, clock: nat)
    requires x !in born && Ordered(held, todo, born[x := clock], clock + 1)
    ensures Ordered(held, [Create(x)] + todo, born, clock)
  {
    assert ([Create(x)] + todo)[1..] == todo;
  }

  lemma DumpHead(x: Id, held: seq<Id>, todo: seq<Act>, born: map<Id, nat>, clock: nat)
    requires Ordered(held, todo, born, clock)
    ensures Ordered(held, [Dump(x)] + todo, born, clock)
  {
    assert ([Dump(x)] + todo)[1..] == todo;
  }

  lemma WorkHead(x: Id, held: seq<Id>, todo: seq<Act>, born: map<Id, nat>, clock: nat)
    requires Ordered(held, todo, born, clock)
    ensures Ordered(held, [Work(x)] + todo, born, clock)
  {
    assert ([Work(x)] + todo)[1..] == todo;
  }

  lemma WorktreeCallOrdered(p: Id, c: Id, last: seq<Act>, born: map<Id, nat>, clock: nat)
    requires p in born && c in born && born[p] < born[c]
    requires Ordered([p], last, born, clock)
    ensures Ordered([p], Section(c, false) + last, born, clock)
  {
    SectionOrdered(c, false, [p], last, born, clock);
  }

  lemma LastUnlockOrdered(p: Id, born: map<Id, nat>, clock: nat)
    ensures Ordered([p], [Unlock(p)], born, clock)
  {
    UnlockHead(p, [], [], born, clock);
    assert [] + [p] == [p] && [Unlock(p)] + [] == [Unlock(p)];
  }

  lemma CloneOrdered(x: Id, c: Id, born: map<Id, nat>, clock: nat)
    requires Stamped(born, clock) && x in born && c !in born
    ensures Ordered([], Script(Clone(x, c)), born, clock)
  {
    var born' := born[c := clock];
    var start := Section(c, false) + [Unlock(x)];
    LastUnlockOrdered(x, born', clock + 1);
    WorktreeCallOrdered(x, c, [Unlock(x)], born', clock + 1);
    CreateHead(c, [x], start, born, clock);
    WorkHead(x, [x], [Create(c)] + start, born, clock);
    DumpHead(x, [x], [Work(x)] + ([Create(c)] + start), born, clock);
    OutermostLock(x, [Dump(x)] + ([Work(x)] + ([Create(c)] + start)), born, clock);
    assert Script(Clone(x, c)) == [Lock(x)] + ([Dump(x)] + ([Work(x)] + ([Create(c)] + start)));
  }

  lemma OutermostLock(x: Id, todo: seq<Act>, born: map<Id, nat>, clock: nat)
    requires x in born && Ordered([x], todo, born, clock)
    ensures Ordered([], [Lock(x)] + todo, born, clock)
  {
    assert [] + [x] == [x];
    LockHead(x, [], todo, born, clock);
  }

  lemma WorktreeCallsOrdered(p: Id, c: Id, cloneDB: bool, born: map<Id, nat>, clock: nat)
    requires p in born && c in born && born[p] < born[c]
    ensures Ordered([p], WorktreeCalls(p, c, cloneDB), born, clock)
  {
    LastUnlockOrdered(p, born, clock);
    if cloneDB {
      CopyOrdered(p, c, born, clock);
      var copy := [Dump(p)] + (Section(c, false) + ([Dump(c)] + [Unlock(p)]));
      WorktreeCallOrdered(p, c, copy, born, clock);
      assert WorktreeCalls(p, c, cloneDB) == Section(c, false) + copy;
    } else {
      WorktreeCallOrdered(p, c, [Unlock(p)], born, clock);
    }
  }

  /** Copying the parent's database over. */
  lemma CopyOrdered(p: Id, c: Id, born: map<Id, nat>, clock: nat)
    requires p in born && c in born && born[p] < born[c]
    ensures Ordered([p], [Dump(p)] + (Section(c, false) + ([Dump(c)] + [Unlock(p)])), born, clock)
  {
    LastUnlockOrdered(p, born, clock);
    DumpHead(c, [p], [Unlock(p)], born, clock);
    WorktreeCallOrdered(p, c, [Dump(c)] + [Unlock(p)], born, clock);
    DumpHead(p, [p], Section(c, false) + ([Dump(c)] + [Unlock(p)]), born, clock);
  }

  /** A worktree creation from where the parent's row is in place. */
  lemma WorktreeOrdered(p: Id, c: Id, cloneDB: bool, born: map<Id, nat>, clock: nat)
    requires Stamped(born, clock) && p in born && c !in born
    ensures Ordered([], [Lock(p), Work(p), Create(c)] + WorktreeCalls(p, c, cloneDB), born, clock)
  {
    var calls := WorktreeCalls(p, c, cloneDB);
    WorktreeCallsOrdered(p, c, cloneDB, born[c := clock], clock + 1);
    CreateHead(c, [p], calls, born, clock);
    WorkHead(p, [p], [Create(c)] + calls, born, clock);
    OutermostLock(p, [Work(p)] + ([Create(c)] + calls), born, clock);
    assert [Lock(p), Work(p), Create(c)] + calls == [Lock(p)] + ([Work(p)] + ([Create(c)] + calls));
  }

  lemma {:induction false} SectionsOrdered(x: Id, dumps: seq<bool>, born: map<Id, nat>, clock: nat)
    requires x in born
    ensures Ordered([], Sections(x, dumps), born, clock)
  {
    if dumps != [] {
      SectionsOrdered(x, dumps[1..], born, clock);
      SectionOrdered(x, dumps[0], [], Sections(x, dumps[1..]), born, clock);
    }
  }

  lemma DeleteOrdered(x: Id, born: map<Id, nat>, clock: nat)
    requires x in born
    ensures Ordered([], Script(Delete(x)), born, clock)
  {
    CascadedDelete(x, [], born, clock);
    assert [Cascade(x)] + (Section(x, true) + []) == Script(Delete(x));
  }

  lemma CreateWorktreeOrdered(p: Id, createParent: bool, c: Id, cloneDB: bool, born: map<Id, nat>, clock: nat)
    requires Stamped(born, clock) && c !in born && c != p && (createParent <==> p !in born)
    ensures Ordered([], Script(CreateWorktree(p, createParent, c, cloneDB)), born, clock)
  {
    var rest := [Lock(p), Work(p), Create(c)] + WorktreeCalls(p, c, cloneDB);
    if createParent {
      WorktreeOrdered(p, c, cloneDB, born[p := clock], clock + 1);
      CreateHead(p, [], rest, born, clock);
      assert Script(CreateWorktree(p, createParent, c, cloneDB)) == [Create(p)] + rest;
    } else {
      WorktreeOrdered(p, c, cloneDB, born, clock);
      assert Script(CreateWorktree(p, createParent, c, cloneDB)) == rest;
    }
  }

  /** Every lifecycle operation is in order from the start. */
  lemma ScriptOrdered(op: Op, born: map<Id, nat>, clock: nat)
    requires Stamped(born, clock) && Existing(op) <= born.Keys && Made(op) !! born.Keys
    requires op.Clone? ==> op.child != op.site
    requires op.CreateWorktree? ==> op.child != op.parent
    ensures Ordered([], Script(op), born, clock)
  {
    match op {
      case AddSite(x) => CreateHead(x, [], [], born, clock);
      case Locked(x) =>
        SectionOrdered(x, false, [], [], born, clock);
        assert Section(x, false) + [] == Script(op);
      case LockedDump(x) =>
        SectionOrdered(x, true, [], [], born, clock);
        assert Section(x, true) + [] == Script(op);
      case Delete(x) => DeleteOrdered(x, born, clock);
      case Clone(x, c) => CloneOrdered(x, c, born, clock);
      case Migrate(x) => SectionsOrdered(x, [false, true, false, false, false, true, false], born, clock);
      case CreateWorktree(p, createParent, c, cloneDB) =>
        CreateWorktreeOrdered(p, createParent, c, cloneDB, born, clock);
    }
  }

  lemma {:induction false} SectionsCreateNothing(x: Id, dumps: seq<bool>, y: Id)
    ensures Create(y) !in Sections(x, dumps)
  {
    if dumps != [] {
      SectionsCreateNothing(x, dumps[1..], y);
    }
  }

  lemma ScriptCreates(op: Op, x: Id)
    requires Create(x) in Script(op)
    ensures x in Made(op)
  {
    if op.Migrate? {
      SectionsCreateNothing(op.site, [false, true, false, false, false, true, false], x);
    }
  }

  lemma SpawnInv(s: State, t: Tid, op: Op)
    requires Inv(s) && CanSpawn(s, t, op)
    ensures Inv(With(s, t, Thread(Script(op), NotStarted, [])))
  {
    var th := Thread(Script(op), NotStarted, []);
    var s' := With(s, t, th);
    ScriptOrdered(op, s.born, s.clock);
    assert ThreadOk(s', t, th);
    forall u | u in s.threads
      ensures ThreadOk(s', u, s'.threads[u])
    {
      OthersStay(s, s', u, s.threads[u]);
    }
    SameHeldMutexes(s, s');
    forall x | Create(x) in Script(op)
      ensures Unused(s, x)
    {
      ScriptCreates(op, x);
    }
    SpawnFresh(s, t, th);
  }

  lemma SpawnFresh(s: State, t: Tid, th: Thread)
    requires FreshOk(s) && t !in s.threads && th.lookup == NotStarted
    requires forall x | Create(x) in th.todo :: Unused(s, x)
    ensures FreshOk(With(s, t, th))
  {
  }

  // ---- Whole runs ----

  lemma MoveInv(s: State, m: Move)
    requires Inv(s) && Enabled(s, m)
    ensures Inv(Do(s, m))
  {
    match m {
      case Spawn(t, op) => SpawnInv(s, t, op);
      case Load(t) => LoadInv(s, t);
      case LoadOrStore(t) => LoadOrStoreInv(s, t);
      case Acquire(t) => AcquireInv(s, t);
      case Release(t) => ReleaseInv(s, t);
      case Insert(t) => InsertInv(s, t);
      case _ => ProgramMoveInv(s, m);
    }
  }

  lemma {:induction false} RunInv(s: State, moves: seq<Move>)
    requires Inv(s) && IsRun(s, moves)
    ensures Inv(After(s, moves))
    decreases |moves|
  {
    if moves != [] {
      MoveInv(s, moves[0]);
      RunInv(Do(s, moves[0]), moves[1..]);
    }
  }

  /** An id has one mutex forever: later states keep every entry of the map. */
  lemma {:induction false} OneMutexForever(s: State, moves: seq<Move>)
    requires IsRun(s, moves)
    ensures forall x | x in s.locks :: x in After(s, moves).locks && After(s, moves).locks[x] == s.locks[x]
    decreases |moves|
  {
    if moves != [] {
      var s' := Do(s, moves[0]);
      assert forall x | x in s.locks :: x in s'.locks && s'.locks[x] == s.locks[x];
      OneMutexForever(s', moves[1..]);
    }
  }

  /**
   In every reachable state a site is held by at most one goroutine and once only, nobody is about to lock a site it
   holds, and whoever holds a site while asking for another asks for one created later.
   */
  lemma LockDiscipline(s0: State, moves: seq<Move>)
    requires Initial(s0) && IsRun(s0, moves)
    ensures var s := After(s0, moves);
            && (forall t, u, x | t in s.threads && u in s.threads ::
                  x in s.threads[t].held && x in s.threads[u].held ==> t == u)
            && (forall t, i, j | t in s.threads && 0 <= i < j < |s.threads[t].held| ::
                  s.threads[t].held[i] != s.threads[t].held[j])
            && (forall t, h | AtLock(s, t) && h in s.threads[t].held ::
                  && h != s.threads[t].todo[0].id && h in s.born && s.threads[t].todo[0].id in s.born
                  && s.born[h] < s.born[s.threads[t].todo[0].id])
            && (forall t, u | AtLock(s, t) && AtLock(s, u) ::
                  s.threads[t].lookup.Resolved? && s.threads[u].lookup.Resolved? ==>
                    (s.threads[t].lookup.mutex == s.threads[u].lookup.mutex <==>
                     s.threads[t].todo[0].id == s.threads[u].todo[0].id))
  {
    InitialInv(s0);
    RunInv(s0, moves);
    var s := After(s0, moves);
    forall t | t in s.threads
      ensures ThreadOk(s, t, s.threads[t])
    {
    }
    forall t, u, x | t in s.threads && u in s.threads && x in s.threads[t].held && x in s.threads[u].held
      ensures t == u
    {
      assert HoldsOk(s, t, s.threads[t].held) && HoldsOk(s, u, s.threads[u].held);
    }
  }

  /** A step some goroutine takes of its own program; arrivals, skipped calls and error returns do not count. */
  predicate Works(m: Move) {
    !m.Spawn? && !m.SkipCall? && !m.Bail?
  }

  predicate Unfinished(s: State, t: Tid) {
    t in s.threads && s.threads[t].todo != []
  }

  /** The step goroutine `t` takes next. */
  function NextMove(s: State, t: Tid): Move
    requires Unfinished(s, t)
  {
    match s.threads[t].todo[0]
    case Lock(_) => (match s.threads[t].lookup
                     case NotStarted => Load(t)
                     case Missed(_) => LoadOrStore(t)
                     case Resolved(_) => Acquire(t))
    case Unlock(_) => Release(t)
    case Create(_) => Insert(t)
    case Dump(_) => TakeDump(t)
    case Work(_) => DoWork(t)
    case Cascade(_) => ReadChildren(t, [])
  }

  ghost predicate Blocked(s: State, t: Tid) {
    AtLock(s, t) && s.threads[t].lookup.Resolved? && s.threads[t].lookup.mutex in s.owner
  }

  lemma UnblockedSteps(s: State, t: Tid)
    requires Inv(s) && Unfinished(s, t) && !Blocked(s, t)
    ensures Enabled(s, NextMove(s, t)) && Works(NextMove(s, t))
  {
    assert ThreadOk(s, t, s.threads[t]);
  }

  /** What a blocked goroutine waits for is held by an unfinished one, which can itself only wait for a younger site. */
  lemma BlockerWaitsForYounger(s: State, t: Tid) returns (u: Tid)
    requires Inv(s) && Blocked(s, t)
    ensures s.threads[t].todo[0].id in s.born
    ensures Unfinished(s, u)
    ensures Blocked(s, u) ==>
              s.threads[u].todo[0].id in s.born
              && s.born[s.threads[t].todo[0].id] < s.born[s.threads[u].todo[0].id]
  {
    var x := s.threads[t].todo[0].id;
    assert ThreadOk(s, t, s.threads[t]);
    u := s.owner[s.threads[t].lookup.mutex];
    var h :| h in s.threads[u].held && h in s.locks && s.locks[h] == s.threads[t].lookup.mutex;
    assert h == x;
    assert ThreadOk(s, u, s.threads[u]);
  }

  /** Following the waits from `t` ends at a goroutine that can step: each wait is for a younger site than the last. */
  lemma {:induction false} SomeoneSteps(s: State, t: Tid) returns (u: Tid)
    requires Inv(s) && Unfinished(s, t)
    ensures Unfinished(s, u) && !Blocked(s, u)
    decreases if Blocked(s, t) && s.threads[t].todo[0].id in s.born
              then s.clock - s.born[s.threads[t].todo[0].id] else -1
  {
    u := t;
    if Blocked(s, t) {
      var v := BlockerWaitsForYounger(s, t);
      u := SomeoneSteps(s, v);
    }
  }

  /** No deadlock: as long as some goroutine is unfinished, one of them can take its next step. */
  lemma NoDeadlock(s0: State, moves: seq<Move>)
    requires Initial(s0) && IsRun(s0, moves)
    requires exists t :: Unfinished(After(s0, moves), t)
    ensures exists m :: Enabled(After(s0, moves), m) && Works(m)
  {
    InitialInv(s0);
    RunInv(s0, moves);
    var s := After(s0, moves);
    var t :| Unfinished(s, t);
    var u := SomeoneSteps(s, t);
    UnblockedSteps(s, u);
  }

  /** Once every goroutine is through, every mutex is free. */
  lemma AllReleased(s0: State, moves: seq<Move>)
    requires Initial(s0) && IsRun(s0, moves)
    requires forall t :: !Unfinished(After(s0, moves), t)
    ensures After(s0, moves).owner == map[]
  {
    InitialInv(s0);
    RunInv(s0, moves);
    var s := After(s0, moves);
    forall m | m in s.owner
      ensures Unfinished(s, s.owner[m])
    {
      assert ThreadOk(s, s.owner[m], s.threads[s.owner[m]]);
    }
  }

  // ---- Dumps and the lock they rely on ----

  /** Every dump still to come is taken with its site's lock held. */
  ghost predicate DumpsUnderLock(held: seq<Id>, todo: seq<Act>)
    decreases |todo|
  {
    todo == [] ||
    match todo[0]
    case Lock(x) => DumpsUnderLock(held + [x], todo[1..])
    case Unlock(_) => DumpsUnderLock(if held == [] then [] else held[..|held| - 1], todo[1..])
    case Dump(x) => x in held && DumpsUnderLock(held, todo[1..])
    case _ => DumpsUnderLock(held, todo[1..])
  }

  lemma {:induction false} SectionsDump(x: Id, dumps: seq<bool>)
    ensures DumpsUnderLock([], Sections(x, dumps))
  {
    if dumps != [] {
      SectionsDump(x, dumps[1..]);
      SectionDumps(x, dumps[0], [], Sections(x, dumps[1..]));
    }
  }

  lemma ActDumps(held: seq<Id>, act: Act, todo: seq<Act>)
    ensures DumpsUnderLock(held, [act] + todo) <==>
              match act
              case Lock(x) => DumpsUnderLock(held + [x], todo)
              case Unlock(_) => DumpsUnderLock(if held == [] then [] else held[..|held| - 1], todo)
              case Dump(x) => x in held && DumpsUnderLock(held, todo)
              case _ => DumpsUnderLock(held, todo)
  {
    assert ([act] + todo)[1..] == todo;
  }

  lemma WorkDumps(x: Id, held: seq<Id>, todo: seq<Act>)
    ensures DumpsUnderLock(held + [x], [Work(x)] + ([Unlock(x)] + todo)) <==> DumpsUnderLock(held, todo)
  {
    Popped(held, x);
    ActDumps(held + [x], Unlock(x), todo);
    ActDumps(held + [x], Work(x), [Unlock(x)] + todo);
  }

  lemma SectionDumps(x: Id, dump: bool, held: seq<Id>, todo: seq<Act>)
    ensures DumpsUnderLock(held, Section(x, dump) + todo) <==> DumpsUnderLock(held, todo)
  {
    var rest := [Work(x)] + ([Unlock(x)] + todo);
    SectionParts(x, todo);
    WorkDumps(x, held, todo);
    if dump {
      ActDumps(held + [x], Dump(x), rest);
      ActDumps(held, Lock(x), [Dump(x)] + rest);
    } else {
      ActDumps(held, Lock(x), rest);
    }
  }

  /** Every operation dumps a site under its lock, except the worktree creation that also copies the database. */
  predicate DumpsUnlocked(op: Op) {
    op.CreateWorktree? && op.cloneDB
  }

  lemma ScriptDumps(op: Op)
    requires op.CreateWorktree? ==> op.child != op.parent
    ensures DumpsUnderLock([], Script(op)) <==> !DumpsUnlocked(op)
  {
    match op {
      case Migrate(x) => SectionsDump(x, [false, true, false, false, false, true, false]);
      case CreateWorktree(p, createParent, c, cloneDB) =>
        WorktreeScriptDumps(p, createParent, c, cloneDB);
      case _ => PlainDumps(op);
    }
  }

  lemma WorktreeScriptDumps(p: Id, createParent: bool, c: Id, cloneDB: bool)
    requires p != c
    ensures DumpsUnderLock([], Script(CreateWorktree(p, createParent, c, cloneDB))) <==> !cloneDB
  {
    var calls := WorktreeCalls(p, c, cloneDB);
    WorktreeParts(p, createParent, c, cloneDB);
    WorktreeCallsDump(p, c, cloneDB);
    assert [] + [p] == [p];
    ActDumps([p], Create(c), calls);
    ActDumps([p], Work(p), [Create(c)] + calls);
    ActDumps([], Lock(p), [Work(p)] + ([Create(c)] + calls));
    ActDumps([], Create(p), [Lock(p)] + ([Work(p)] + ([Create(c)] + calls)));
  }

  lemma LastUnlockDumps(x: Id)
    ensures DumpsUnderLock([x], [Unlock(x)])
  {
    ActDumps([x], Unlock(x), []);
    assert [Unlock(x)] + [] == [Unlock(x)];
  }

  lemma CloneDumps(x: Id, c: Id)
    ensures DumpsUnderLock([], Script(Clone(x, c)))
  {
    var start := Section(c, false) + [Unlock(x)];
    CloneParts(x, c);
    LastUnlockDumps(x);
    SectionDumps(c, false, [x], [Unlock(x)]);
    assert [] + [x] == [x];
    ActDumps([x], Create(c), start);
    ActDumps([x], Work(x), [Create(c)] + start);
    ActDumps([x], Dump(x), [Work(x)] + ([Create(c)] + start));
    ActDumps([], Lock(x), [Dump(x)] + ([Work(x)] + ([Create(c)] + start)));
  }

  lemma AddSiteDumps(x: Id)
    ensures DumpsUnderLock([], Script(AddSite(x)))
  {
    ActDumps([], Create(x), []);
    assert [Create(x)] + [] == Script(AddSite(x));
  }

  /** One locked section, with or without a dump. */
  lemma OneSectionDumps(x: Id)
    ensures DumpsUnderLock([], Script(Locked(x)))
    ensures DumpsUnderLock([], Script(LockedDump(x)))
  {
    SectionDumps(x, false, [], []);
    SectionDumps(x, true, [], []);
    assert Section(x, false) + [] == Script(Locked(x));
    assert Section(x, true) + [] == Script(LockedDump(x));
  }

  lemma DeleteDumps(x: Id)
    ensures DumpsUnderLock([], Script(Delete(x)))
  {
    OneSectionDumps(x);
    ActDumps([], Cascade(x), Script(LockedDump(x)));
    assert [Cascade(x)] + Script(LockedDump(x)) == Script(Delete(x));
  }

  lemma PlainDumps(op: Op)
    requires !op.Migrate? && !op.CreateWorktree?
    ensures DumpsUnderLock([], Script(op))
  {
    match op {
      case AddSite(x) => AddSiteDumps(x);
      case Locked(x) => OneSectionDumps(x);
      case LockedDump(x) => OneSectionDumps(x);
      case Delete(x) => DeleteDumps(x);
      case Clone(x, c) => CloneDumps(x, c);
    }
  }

  lemma WorktreeCallsDump(p: Id, c: Id, cloneDB: bool)
    requires p != c
    ensures DumpsUnderLock([p], WorktreeCalls(p, c, cloneDB)) <==> !cloneDB
  {
    LastUnlockDumps(p);
    if cloneDB {
      var last := [Dump(c)] + [Unlock(p)];
      WorktreeCallsParts(p, c);
      ActDumps([p], Dump(c), [Unlock(p)]);
      SectionDumps(c, false, [p], last);
      ActDumps([p], Dump(p), Section(c, false) + last);
      SectionDumps(c, false, [p], [Dump(p)] + (Section(c, false) + last));
    } else {
      SectionDumps(c, false, [p], [Unlock(p)]);
    }
  }

  ghost predicate AllDumpsUnderLock(s: State) {
    forall t | t in s.threads :: DumpsUnderLock(s.threads[t].held, s.threads[t].todo)
  }

  lemma {:induction false} UnwindDumps(held: seq<Id>)
    ensures DumpsUnderLock(held, Unwind(held))
  {
    if held != [] {
      UnwindDumps(held[..|held| - 1]);
    }
  }

  lemma {:induction false} CascadeDumps(cs: seq<Id>, held: seq<Id>, todo: seq<Act>)
    requires DumpsUnderLock(held, todo)
    ensures DumpsUnderLock(held, CascadeScript(cs) + todo)
  {
    if cs == [] {
      assert CascadeScript(cs) + todo == todo;
    } else {
      var c, rest := cs[0], CascadeScript(cs[1..]) + todo;
      CascadeDumps(cs[1..], held, todo);
      SectionDumps(c, true, held, rest);
      CascadeScriptSplits(cs, todo);
      ActDumps(held, Cascade(c), Section(c, true) + rest);
    }
  }

  lemma SkippedDumps(held: seq<Id>, todo: seq<Act>)
    requires DumpsUnderLock(held, todo) && 0 < CallLength(todo)
    ensures DumpsUnderLock(held, todo[CallLength(todo)..])
  {
    SkippedSection(todo);
    var dump :| todo == Section(todo[0].id, dump) + todo[CallLength(todo)..];
    SectionDumps(todo[0].id, dump, held, todo[CallLength(todo)..]);
  }

  lemma OneProgramDumps(s: State, s': State, t: Tid)
    requires AllDumpsUnderLock(s) && t in s'.threads && s'.threads == s.threads[t := s'.threads[t]]
    requires DumpsUnderLock(s'.threads[t].held, s'.threads[t].todo)
    ensures AllDumpsUnderLock(s')
  {
  }

  lemma MoveDumps(s: State, m: Move)
    requires AllDumpsUnderLock(s) && Enabled(s, m)
    requires m.Spawn? ==> !DumpsUnlocked(m.op)
    ensures AllDumpsUnderLock(Do(s, m))
  {
    match m {
      case Spawn(_, op) => ScriptDumps(op);
      case ReadChildren(t, cs) => CascadeDumps(cs, s.threads[t].held, s.threads[t].todo[1..]);
      case SkipCall(t) => SkippedDumps(s.threads[t].held, s.threads[t].todo);
      case Bail(t) => UnwindDumps(s.threads[t].held);
      case _ => assert DumpsUnderLock(s.threads[m.t].held, s.threads[m.t].todo);
    }
    OneProgramDumps(s, Do(s, m), m.t);
  }

  /** As long as no worktree is created with a database copy, whoever dumps a site holds its lock. */
  lemma {:induction false} DumpsHoldTheLock(s: State, moves: seq<Move>)
    requires IsRun(s, moves) && AllDumpsUnderLock(s)
    requires forall m | m in moves :: m.Spawn? ==> !DumpsUnlocked(m.op)
    ensures forall t | Unfinished(After(s, moves), t) && After(s, moves).threads[t].todo[0].Dump? ::
              After(s, moves).threads[t].todo[0].id in After(s, moves).threads[t].held
    decreases |moves|
  {
    if moves != [] {
      assert moves[0] in moves;
      MoveDumps(s, moves[0]);
      DumpsHoldTheLock(Do(s, moves[0]), moves[1..]);
    }
  }

  // ---- The unlocked dump ----

  lemma {:induction false} RunsConcat(s: State, a: seq<Move>, b: seq<Move>)
    requires IsRun(s, a) && IsRun(After(s, a), b)
    ensures IsRun(s, a + b) && After(s, a + b) == After(After(s, a), b)
    decreases |a|
  {
    if a == [] {
      assert a + b == b;
    } else {
      assert (a + b)[1..] == a[1..] + b;
      RunsConcat(Do(s, a[0]), a[1..], b);
    }
  }

  lemma OneMove(s: State, m: Move)
    requires Enabled(s, m)
    ensures IsRun(s, [m]) && After(s, [m]) == Do(s, m)
  {
    assert [m][1..] == [];
    assert After(Do(s, m), []) == Do(s, m);
  }

  lemma OneMore(s: State, moves: seq<Move>, m: Move)
    requires IsRun(s, moves) && Enabled(After(s, moves), m)
    ensures IsRun(s, moves + [m]) && After(s, moves + [m]) == Do(After(s, moves), m)
  {
    OneMove(After(s, moves), m);
    RunsConcat(s, moves, [m]);
  }

  /** Nobody owns the mutex of this site. */
  predicate Free(s: State, x: Id) {
    x in s.locks ==> s.locks[x] !in s.owner
  }

  /** What `t` finds once it has locked the site it was about to lock. */
  ghost predicate LockedNow(s: State, u: State, t: Tid)
    requires AtLock(s, t)
  {
    var th := s.threads[t];
    var x := th.todo[0].id;
    && u.threads == s.threads[t := Thread(th.todo[1..], NotStarted, th.held + [x])]
    && u.born == s.born && u.clock == s.clock
    && x in u.locks && u.locks.Keys == s.locks.Keys + {x}
  }

  ghost predicate NoSpawns(moves: seq<Move>) {
    forall m | m in moves :: !m.Spawn?
  }

  /** Mutexes are numbered as they are made. */
  ghost predicate Numbered(s: State) {
    (forall x | x in s.locks :: s.locks[x] < s.nextMutex) && (forall m | m in s.owner :: m < s.nextMutex)
  }

  /** `t` has looked the mutex of its site up, and nobody owns it. */
  ghost predicate FoundFree(s: State, u: State, t: Tid)
    requires AtLock(s, t)
  {
    var th := s.threads[t];
    var x := th.todo[0].id;
    && x in u.locks && u.locks.Keys == s.locks.Keys + {x} && u.locks[x] !in u.owner
    && u.threads == s.threads[t := th.(lookup := Resolved(u.locks[x]))]
    && u.born == s.born && u.clock == s.clock && Numbered(u)
  }

  lemma FindsFreeLock(s: State, t: Tid) returns (moves: seq<Move>)
    requires AtLock(s, t) && s.threads[t].lookup == NotStarted && Free(s, s.threads[t].todo[0].id)
    requires Numbered(s)
    ensures IsRun(s, moves) && FoundFree(s, After(s, moves), t)
    ensures NoSpawns(moves)
  {
    var none: seq<Move> := [];
    OneMore(s, none, Load(t));
    moves := none + [Load(t)];
    if s.threads[t].todo[0].id !in s.locks {
      OneMore(s, moves, LoadOrStore(t));
      moves := moves + [LoadOrStore(t)];
    }
  }

  lemma AcquiresFreeLock(s: State, u: State, t: Tid)
    requires AtLock(s, t) && FoundFree(s, u, t)
    ensures Enabled(u, Acquire(t)) && LockedNow(s, Do(u, Acquire(t)), t) && Numbered(Do(u, Acquire(t)))
  {
  }

  lemma TakesFreeLock(s: State, t: Tid) returns (moves: seq<Move>)
    requires Numbered(s) && AtLock(s, t) && s.threads[t].lookup == NotStarted && Free(s, s.threads[t].todo[0].id)
    ensures IsRun(s, moves) && LockedNow(s, After(s, moves), t) && Numbered(After(s, moves))
    ensures NoSpawns(moves)
  {
    moves := FindsFreeLock(s, t);
    AcquiresFreeLock(s, After(s, moves), t);
    OneMore(s, moves, Acquire(t));
    moves := moves + [Acquire(t)];
  }

  /** Goroutine `t` is the only one, between two actions: `todo` is left and `held` is held. */
  ghost predicate Alone(s: State, t: Tid, todo: seq<Act>, held: seq<Id>) {
    s.threads == map[t := Thread(todo, NotStarted, held)]
  }

  lemma AloneLocks(s: State, t: Tid, todo: seq<Act>, held: seq<Id>) returns (moves: seq<Move>)
    requires Numbered(s) && Alone(s, t, todo, held) && todo != [] && todo[0].Lock? && Free(s, todo[0].id)
    ensures IsRun(s, moves) && NoSpawns(moves) && Numbered(After(s, moves))
    ensures Alone(After(s, moves), t, todo[1..], held + [todo[0].id])
    ensures After(s, moves).locks.Keys == s.locks.Keys + {todo[0].id}
  {
    moves := TakesFreeLock(s, t);
  }

  lemma AloneWorks(s: State, t: Tid, x: Id, todo: seq<Act>, held: seq<Id>)
    requires Alone(s, t, [Work(x)] + todo, held)
    ensures Enabled(s, DoWork(t)) && Alone(Do(s, DoWork(t)), t, todo, held)
  {
    assert ([Work(x)] + todo)[1..] == todo;
  }

  lemma AloneReleases(s: State, t: Tid, x: Id, todo: seq<Act>, held: seq<Id>)
    requires Numbered(s) && Alone(s, t, [Unlock(x)] + todo, held + [x]) && x in s.locks
    ensures Enabled(s, Release(t))
    ensures var u := Do(s, Release(t)); Numbered(u) && Alone(u, t, todo, held) && Free(u, x)
  {
    assert ([Unlock(x)] + todo)[1..] == todo;
    assert (held + [x])[..|held|] == held;
  }

  /** A nested call locks its site, does its work, and unlocks it. */
  lemma AloneCalls(s: State, t: Tid, x: Id, todo: seq<Act>, held: seq<Id>) returns (moves: seq<Move>)
    requires Numbered(s) && Alone(s, t, Section(x, false) + todo, held) && Free(s, x)
    ensures IsRun(s, moves) && NoSpawns(moves) && Numbered(After(s, moves))
    ensures Alone(After(s, moves), t, todo, held) && Free(After(s, moves), x)
  {
    var rest := [Unlock(x)] + todo;
    assert (Section(x, false) + todo)[1..] == [Work(x)] + rest;
    moves := AloneLocks(s, t, Section(x, false) + todo, held);
    AloneWorks(After(s, moves), t, x, rest, held + [x]);
    OneMore(s, moves, DoWork(t));
    moves := moves + [DoWork(t)];
    AloneReleases(After(s, moves), t, x, todo, held);
    OneMore(s, moves, Release(t));
    moves := moves + [Release(t)];
  }

  /** Up to its first nested call: the parent is locked and the child is in the table. */
  lemma WorktreeInserts(s: State, t: Tid, p: Id, c: Id, todo: seq<Act>) returns (moves: seq<Move>)
    requires Numbered(s) && Alone(s, t, [Lock(p), Work(p), Create(c)] + todo, []) && s.locks == map[] && p != c
    ensures IsRun(s, moves) && NoSpawns(moves) && Numbered(After(s, moves))
    ensures Alone(After(s, moves), t, todo, [p]) && Free(After(s, moves), c)
  {
    var all, rest := [Lock(p), Work(p), Create(c)] + todo, [Create(c)] + todo;
    assert all[1..] == [Work(p)] + rest && rest[1..] == todo && [] + [p] == [p];
    moves := AloneLocks(s, t, all, []);
    AloneWorks(After(s, moves), t, p, rest, [p]);
    OneMore(s, moves, DoWork(t));
    moves := moves + [DoWork(t)];
    OneMore(s, moves, Insert(t));
    moves := moves + [Insert(t)];
  }

  lemma WorktreeDumps(s: State, t: Tid, p: Id, c: Id) returns (moves: seq<Move>)
    requires Numbered(s) && Alone(s, t, WorktreeCalls(p, c, true), [p]) && Free(s, c)
    ensures IsRun(s, moves) && NoSpawns(moves)
    ensures Alone(After(s, moves), t, [Dump(c), Unlock(p)], [p]) && Free(After(s, moves), c)
  {
    var last := [Dump(c), Unlock(p)];
    var copy := [Dump(p)] + (Section(c, false) + last);
    assert WorktreeCalls(p, c, true) == Section(c, false) + copy && copy[1..] == Section(c, false) + last;
    moves := AloneCalls(s, t, c, copy, [p]);
    OneMore(s, moves, TakeDump(t));
    moves := moves + [TakeDump(t)];
    var more := AloneCalls(After(s, moves), t, c, last, [p]);
    RunsConcat(s, moves, more);
    moves := moves + more;
  }

  /** Some goroutine is about to dump a site whose mutex nobody owns. */
  ghost predicate UnlockedDump(s: State) {
    exists t :: Unfinished(s, t) && s.threads[t].todo[0].Dump? && Free(s, s.threads[t].todo[0].id)
  }

  /** From an initial state this run, in which no other operation starts, leads to an unlocked dump. */
  ghost predicate LeadsToUnlockedDump(s: State, moves: seq<Move>, op: Op) {
    && Initial(s) && IsRun(s, moves) && (forall m | m in moves :: m.Spawn? ==> m.op == op)
    && UnlockedDump(After(s, moves))
  }

  /** The goroutine runs its script without an error. */
  lemma WorktreeStarts(s: State, t: Tid, op: Op) returns (moves: seq<Move>)
    requires Initial(s) && op.CreateWorktree? && op.cloneDB && CanSpawn(s, t, op)
    ensures IsRun(s, moves) && (forall m | m in moves :: m.Spawn? ==> m.op == op) && Numbered(After(s, moves))
    ensures var calls := WorktreeCalls(op.parent, op.child, true);
            && Alone(After(s, moves), t, [Lock(op.parent), Work(op.parent), Create(op.child)] + calls, [])
            && After(s, moves).locks == map[]
  {
    var none: seq<Move> := [];
    var rest := [Lock(op.parent), Work(op.parent), Create(op.child)] + WorktreeCalls(op.parent, op.child, true);
    OneMore(s, none, Spawn(t, op));
    moves := none + [Spawn(t, op)];
    if op.createParent {
      assert Script(op) == [Create(op.parent)] + rest && Script(op)[1..] == rest;
      OneMore(s, moves, Insert(t));
      moves := moves + [Insert(t)];
    } else {
      assert Script(op) == rest;
    }
  }

  lemma WorktreeReachesDump(s: State, t: Tid, op: Op) returns (moves: seq<Move>)
    requires Initial(s) && op.CreateWorktree? && op.cloneDB && CanSpawn(s, t, op)
    ensures LeadsToUnlockedDump(s, moves, op)
  {
    var p, c := op.parent, op.child;
    var starts := WorktreeStarts(s, t, op);
    var inserts := WorktreeInserts(After(s, starts), t, p, c, WorktreeCalls(p, c, true));
    RunsConcat(s, starts, inserts);
    var dumps := WorktreeDumps(After(s, starts + inserts), t, p, c);
    moves := starts + inserts + dumps;
    RunsConcat(s, starts + inserts, dumps);
    assert Unfinished(After(s, moves), t);
  }

  lemma LockedDumpOnly(s: State, moves: seq<Move>, op: Op)
    requires LeadsToUnlockedDump(s, moves, op)
    ensures DumpsUnlocked(op)
  {
    if !DumpsUnlocked(op) {
      InitialInv(s);
      RunInv(s, moves);
      DumpsHoldTheLock(s, moves);
      var u := After(s, moves);
      forall t | Unfinished(u, t) && u.threads[t].todo[0].Dump?
        ensures !Free(u, u.threads[t].todo[0].id)
      {
        assert ThreadOk(u, t, u.threads[t]);
      }
    }
  }

  /**
   An operation can come to dump a site whose mutex nobody owns exactly if it creates a worktree and copies the
   database: then a run of it alone, with no error, comes to that point.
   */
  lemma UnlockedDumpExactly(op: Op)
    requires op.CreateWorktree? ==> op.child != op.parent
    ensures DumpsUnlocked(op) <==> exists s, moves :: LeadsToUnlockedDump(s, moves, op)
  {
    if DumpsUnlocked(op) {
      var born: map<Id, nat> := if op.createParent then map[] else map[op.parent := 0];
      var s := State(map[], map[], map[], born, 1, 0);
      var moves := WorktreeReachesDump(s, 0, op);
      assert LeadsToUnlockedDump(s, moves, op);
    }
    if s, moves :| LeadsToUnlockedDump(s, moves, op) {
      LockedDumpOnly(s, moves, op);
    }
  }

  // ---- What the operations do, and under which locks ----

  /** The goroutines started so far and their operations. */
  function Started(ops: map<Tid, Op>, moves: seq<Move>): map<Tid, Op>
    decreases |moves|
  {
    if moves == [] then ops
    else Started(if moves[0].Spawn? then ops[moves[0].t := moves[0].op] else ops, moves[1..])
  }

  /** Where a goroutine that inserts this row stands: a child comes into the table under its parent's lock. */
  predicate MayInsert(op: Op, x: Id, held: seq<Id>) {
    match op
    case Clone(s, c) => x == c ==> s in held
    case CreateWorktree(p, _, c, _) => x == c ==> p in held
    case _ => true
  }

  /** All work still to come is done on a site that is locked by then, and all children are inserted so. */
  ghost predicate Guarded(op: Op, held: seq<Id>, todo: seq<Act>)
    decreases |todo|
  {
    todo == [] ||
    match todo[0]
    case Lock(x) => Guarded(op, held + [x], todo[1..])
    case Unlock(_) => Guarded(op, if held == [] then [] else held[..|held| - 1], todo[1..])
    case Work(x) => x in held && Guarded(op, held, todo[1..])
    case Create(x) => MayInsert(op, x, held) && Guarded(op, held, todo[1..])
    case _ => Guarded(op, held, todo[1..])
  }

  lemma ActGuarded(op: Op, held: seq<Id>, act: Act, todo: seq<Act>)
    ensures Guarded(op, held, [act] + todo) <==>
              match act
              case Lock(x) => Guarded(op, held + [x], todo)
              case Unlock(_) => Guarded(op, if held == [] then [] else held[..|held| - 1], todo)
              case Work(x) => x in held && Guarded(op, held, todo)
              case Create(x) => MayInsert(op, x, held) && Guarded(op, held, todo)
              case _ => Guarded(op, held, todo)
  {
    assert ([act] + todo)[1..] == todo;
  }

  lemma WorkGuarded(op: Op, x: Id, held: seq<Id>, todo: seq<Act>)
    ensures Guarded(op, held + [x], [Work(x)] + ([Unlock(x)] + todo)) <==> Guarded(op, held, todo)
  {
    Popped(held, x);
    ActGuarded(op, held + [x], Unlock(x), todo);
    ActGuarded(op, held + [x], Work(x), [Unlock(x)] + todo);
  }

  lemma SectionGuarded(op: Op, x: Id, dump: bool, held: seq<Id>, todo: seq<Act>)
    ensures Guarded(op, held, Section(x, dump) + todo) <==> Guarded(op, held, todo)
  {
    var rest := [Work(x)] + ([Unlock(x)] + todo);
    SectionParts(x, todo);
    WorkGuarded(op, x, held, todo);
    if dump {
      ActGuarded(op, held + [x], Dump(x), rest);
      ActGuarded(op, held, Lock(x), [Dump(x)] + rest);
    } else {
      ActGuarded(op, held, Lock(x), rest);
    }
  }

  lemma {:induction false} SectionsGuarded(op: Op, x: Id, dumps: seq<bool>)
    ensures Guarded(op, [], Sections(x, dumps))
  {
    if dumps != [] {
      SectionsGuarded(op, x, dumps[1..]);
      SectionGuarded(op, x, dumps[0], [], Sections(x, dumps[1..]));
    }
  }

  lemma LastUnlockGuarded(op: Op, x: Id)
    ensures Guarded(op, [x], [Unlock(x)])
  {
    ActGuarded(op, [x], Unlock(x), []);
    assert [Unlock(x)] + [] == [Unlock(x)] && [x][..0] == [];
  }

  lemma CloneGuarded(x: Id, c: Id)
    ensures Guarded(Clone(x, c), [], Script(Clone(x, c)))
  {
    var op := Clone(x, c);
    var start := Section(c, false) + [Unlock(x)];
    LastUnlockGuarded(op, x);
    SectionGuarded(op, c, false, [x], [Unlock(x)]);
    ActGuarded(op, [x], Create(c), start);
    ActGuarded(op, [x], Work(x), [Create(c)] + start);
    ActGuarded(op, [x], Dump(x), [Work(x)] + ([Create(c)] + start));
    ActGuarded(op, [], Lock(x), [Dump(x)] + ([Work(x)] + ([Create(c)] + start)));
    assert [] + [x] == [x];
    CloneParts(x, c);
  }

  lemma WorktreeCallsGuarded(op: Op, p: Id, c: Id, cloneDB: bool)
    ensures Guarded(op, [p], WorktreeCalls(p, c, cloneDB))
  {
    LastUnlockGuarded(op, p);
    if cloneDB {
      var last := [Dump(c)] + [Unlock(p)];
      var copy := [Dump(p)] + (Section(c, false) + last);
      ActGuarded(op, [p], Dump(c), [Unlock(p)]);
      SectionGuarded(op, c, false, [p], last);
      ActGuarded(op, [p], Dump(p), Section(c, false) + last);
      SectionGuarded(op, c, false, [p], copy);
      WorktreeCallsParts(p, c);
    } else {
      SectionGuarded(op, c, false, [p], [Unlock(p)]);
    }
  }

  lemma WorktreeGuarded(p: Id, createParent: bool, c: Id, cloneDB: bool)
    requires p != c
    ensures var op := CreateWorktree(p, createParent, c, cloneDB); Guarded(op, [], Script(op))
  {
    var op := CreateWorktree(p, createParent, c, cloneDB);
    var calls := WorktreeCalls(p, c, cloneDB);
    WorktreeParts(p, createParent, c, cloneDB);
    WorktreeCallsGuarded(op, p, c, cloneDB);
    assert [] + [p] == [p];
    ActGuarded(op, [p], Create(c), calls);
    ActGuarded(op, [p], Work(p), [Create(c)] + calls);
    ActGuarded(op, [], Lock(p), [Work(p)] + ([Create(c)] + calls));
    ActGuarded(op, [], Create(p), [Lock(p)] + ([Work(p)] + ([Create(c)] + calls)));
  }

  lemma ScriptGuarded(op: Op)
    requires op.CreateWorktree? ==> op.child != op.parent
    ensures Guarded(op, [], Script(op))
  {
    match op {
      case AddSite(x) => assert Script(op)[1..] == [];
      case Locked(x) =>
        SectionGuarded(op, x, false, [], []);
        assert Section(x, false) + [] == Script(op);
      case LockedDump(x) =>
        SectionGuarded(op, x, true, [], []);
        assert Section(x, true) + [] == Script(op);
      case Delete(x) =>
        SectionGuarded(op, x, true, [], []);
        ActGuarded(op, [], Cascade(x), Section(x, true) + []);
        assert Script(op) == [Cascade(x)] + (Section(x, true) + []);
      case Clone(x, c) => CloneGuarded(x, c);
      case Migrate(x) => SectionsGuarded(op, x, [false, true, false, false, false, true, false]);
      case CreateWorktree(p, createParent, c, cloneDB) => WorktreeGuarded(p, createParent, c, cloneDB);
    }
  }

  lemma {:induction false} CascadeGuarded(op: Op, cs: seq<Id>, held: seq<Id>, todo: seq<Act>)
    requires Guarded(op, held, todo)
    ensures Guarded(op, held, CascadeScript(cs) + todo)
  {
    if cs == [] {
      assert CascadeScript(cs) + todo == todo;
    } else {
      var rest := CascadeScript(cs[1..]) + todo;
      CascadeGuarded(op, cs[1..], held, todo);
      SectionGuarded(op, cs[0], true, held, rest);
      ActGuarded(op, held, Cascade(cs[0]), Section(cs[0], true) + rest);
      CascadeScriptSplits(cs, todo);
    }
  }

  lemma SkippedGuarded(op: Op, held: seq<Id>, todo: seq<Act>)
    requires Guarded(op, held, todo) && 0 < CallLength(todo)
    ensures Guarded(op, held, todo[CallLength(todo)..])
  {
    SkippedSection(todo);
    var dump :| todo == Section(todo[0].id, dump) + todo[CallLength(todo)..];
    SectionGuarded(op, todo[0].id, dump, held, todo[CallLength(todo)..]);
  }

  lemma {:induction false} UnwindGuarded(op: Op, held: seq<Id>)
    ensures Guarded(op, held, Unwind(held))
  {
    if held != [] {
      UnwindGuarded(op, held[..|held| - 1]);
    }
  }

  ghost predicate AllGuarded(s: State, ops: map<Tid, Op>) {
    forall t | t in s.threads :: t in ops && Guarded(ops[t], s.threads[t].held, s.threads[t].todo)
  }

  lemma OneProgramGuarded(s: State, s': State, ops: map<Tid, Op>, ops': map<Tid, Op>, t: Tid)
    requires AllGuarded(s, ops) && t in s'.threads && s'.threads == s.threads[t := s'.threads[t]]
    requires t in ops' && ops' == ops[t := ops'[t]] && Guarded(ops'[t], s'.threads[t].held, s'.threads[t].todo)
    ensures AllGuarded(s', ops')
  {
  }

  lemma MoveGuarded(s: State, ops: map<Tid, Op>, m: Move)
    requires AllGuarded(s, ops) && Enabled(s, m)
    ensures AllGuarded(Do(s, m), if m.Spawn? then ops[m.t := m.op] else ops)
  {
    match m {
      case Spawn(t, op) => ScriptGuarded(op);
      case ReadChildren(t, cs) => CascadeGuarded(ops[t], cs, s.threads[t].held, s.threads[t].todo[1..]);
      case SkipCall(t) => SkippedGuarded(ops[t], s.threads[t].held, s.threads[t].todo);
      case Bail(t) => UnwindGuarded(ops[t], s.threads[t].held);
      case _ => assert Guarded(ops[m.t], s.threads[m.t].held, s.threads[m.t].todo);
    }
    OneProgramGuarded(s, Do(s, m), ops, if m.Spawn? then ops[m.t := m.op] else ops, m.t);
  }

  lemma {:induction false} RunGuarded(s: State, ops: map<Tid, Op>, moves: seq<Move>)
    requires AllGuarded(s, ops) && IsRun(s, moves)
    ensures AllGuarded(After(s, moves), Started(ops, moves))
    decreases |moves|
  {
    if moves != [] {
      MoveGuarded(s, ops, moves[0]);
      RunGuarded(Do(s, moves[0]), if moves[0].Spawn? then ops[moves[0].t := moves[0].op] else ops, moves[1..]);
    }
  }

  /** The goroutine owns the mutex that the site's id leads to. */
  predicate Owns(s: State, t: Tid, x: Id) {
    x in s.locks && s.locks[x] in s.owner && s.owner[s.locks[x]] == t
  }

  /**
   In every reachable state whoever is about to do an operation's work on a site owns its mutex, and whoever is about
   to insert a child owns its parent's, after errors and early returns too.
   */
  lemma WorkUnderLock(s0: State, moves: seq<Move>, t: Tid)
    requires Initial(s0) && IsRun(s0, moves) && Unfinished(After(s0, moves), t)
    ensures var s := After(s0, moves);
            var ops := Started(map[], moves);
            && t in ops
            && (s.threads[t].todo[0].Work? ==> Owns(s, t, s.threads[t].todo[0].id))
            && (ops[t].Clone? && s.threads[t].todo[0] == Create(ops[t].child) ==> Owns(s, t, ops[t].site))
            && (ops[t].CreateWorktree? && s.threads[t].todo[0] == Create(ops[t].child) ==> Owns(s, t, ops[t].parent))
  {
    InitialInv(s0);
    RunInv(s0, moves);
    RunGuarded(s0, map[], moves);
    assert ThreadOk(After(s0, moves), t, After(s0, moves).threads[t]);
  }

  /** What an operation does to which site, one thing after the other, locks aside. */
  function Tasks(op: Op): seq<Act> {
    match op
    case AddSite(s) => [Create(s)]
    case Locked(s) => [Work(s)]
    case LockedDump(s) => [Dump(s), Work(s)]
    case Delete(s) => [Cascade(s), Dump(s), Work(s)]
    case Clone(s, c) => [Dump(s), Work(s), Create(c), Work(c)]
    case CreateWorktree(p, createParent, c, cloneDB) =>
      (if createParent then [Create(p)] else [])
        + ([Work(p), Create(c), Work(c)] + if cloneDB then [Dump(p), Work(c), Dump(c)] else [])
    case Migrate(s) => [Work(s), Dump(s), Work(s), Work(s), Work(s), Work(s), Dump(s), Work(s), Work(s)]
  }

  function DeleteTasks(children: seq<Id>): seq<Act> {
    if children == [] then [] else Tasks(Delete(children[0])) + DeleteTasks(children[1..])
  }

  /** The to-do lists of goroutines that know no locks: each move crosses an entry off or changes nothing. */
  function Plain(lists: map<Tid, seq<Act>>, m: Move): map<Tid, seq<Act>> {
    match m
    case Spawn(t, op) => lists[t := Tasks(op)]
    case Insert(t) => lists[t := Rest(lists, t)]
    case TakeDump(t) => lists[t := Rest(lists, t)]
    case DoWork(t) => lists[t := Rest(lists, t)]
    case ReadChildren(t, cs) => lists[t := DeleteTasks(cs) + Rest(lists, t)]
    case _ => lists
  }

  function Rest(lists: map<Tid, seq<Act>>, t: Tid): seq<Act> {
    if t in lists && lists[t] != [] then lists[t][1..] else []
  }

  function PlainRun(lists: map<Tid, seq<Act>>, moves: seq<Move>): map<Tid, seq<Act>>
    decreases |moves|
  {
    if moves == [] then lists else PlainRun(Plain(lists, moves[0]), moves[1..])
  }

  /** The goroutines that skipped a call or gave up. */
  function Dropouts(moves: seq<Move>): set<Tid> {
    set m | m in moves && (m.SkipCall? || m.Bail?) :: m.t
  }

  function WithoutLocks(todo: seq<Act>): seq<Act> {
    if todo == [] then []
    else (if todo[0].Lock? || todo[0].Unlock? then [] else [todo[0]]) + WithoutLocks(todo[1..])
  }

  lemma {:induction false} WithoutLocksOfConcat(a: seq<Act>, b: seq<Act>)
    ensures WithoutLocks(a + b) == WithoutLocks(a) + WithoutLocks(b)
  {
    if a == [] {
      assert a + b == b;
    } else {
      assert (a + b)[1..] == a[1..] + b;
      WithoutLocksOfConcat(a[1..], b);
    }
  }

  lemma ActWithoutLocks(act: Act, todo: seq<Act>)
    ensures WithoutLocks([act] + todo) == (if act.Lock? || act.Unlock? then [] else [act]) + WithoutLocks(todo)
  {
    assert ([act] + todo)[1..] == todo;
  }

  lemma SectionTasks(x: Id, dump: bool, todo: seq<Act>)
    ensures WithoutLocks(Section(x, dump) + todo)
         == (if dump then [Dump(x), Work(x)] else [Work(x)]) + WithoutLocks(todo)
  {
    var last := [Work(x)] + ([Unlock(x)] + todo);
    SectionParts(x, todo);
    ActWithoutLocks(Unlock(x), todo);
    ActWithoutLocks(Work(x), [Unlock(x)] + todo);
    if dump {
      ActWithoutLocks(Dump(x), last);
      ActWithoutLocks(Lock(x), [Dump(x)] + last);
    } else {
      ActWithoutLocks(Lock(x), last);
    }
  }

  lemma OneSectionTasks(x: Id, dump: bool)
    ensures WithoutLocks(Section(x, dump)) == if dump then [Dump(x), Work(x)] else [Work(x)]
  {
    SectionTasks(x, dump, []);
    assert Section(x, dump) + [] == Section(x, dump);
  }

  lemma SectionsTasks(x: Id, dump: bool, dumps: seq<bool>)
    ensures WithoutLocks(Sections(x, [dump] + dumps))
         == (if dump then [Dump(x), Work(x)] else [Work(x)]) + WithoutLocks(Sections(x, dumps))
  {
    assert ([dump] + dumps)[1..] == dumps;
    SectionTasks(x, dump, Sections(x, dumps));
  }

  /** From the purge on: start, restore, stop. */
  lemma MigrateEndTasks(x: Id)
    ensures WithoutLocks(Sections(x, [false, false, true, false])) == [Work(x), Work(x), Dump(x), Work(x), Work(x)]
  {
    SectionsTasks(x, false, []);
    SectionsTasks(x, true, [false]);
    SectionsTasks(x, false, [true, false]);
    SectionsTasks(x, false, [false, true, false]);
    assert [false] + [] == [false] && [true] + [false] == [true, false];
    assert [false] + [true, false] == [false, true, false];
    assert [false] + [false, true, false] == [false, false, true, false];
  }

  lemma MigrateTasks(x: Id)
    ensures WithoutLocks(Script(Migrate(x))) == Tasks(Migrate(x))
  {
    var end := [false, false, true, false];
    MigrateEndTasks(x);
    SectionsTasks(x, false, end);
    SectionsTasks(x, true, [false] + end);
    SectionsTasks(x, false, [true] + ([false] + end));
    assert [false] + ([true] + ([false] + end)) == [false, true, false, false, false, true, false];
  }

  lemma LastUnlockTasks(x: Id)
    ensures WithoutLocks([Unlock(x)]) == []
  {
  }

  lemma CloneTasks(x: Id, c: Id)
    ensures WithoutLocks(Script(Clone(x, c))) == Tasks(Clone(x, c))
  {
    var end := Section(c, false) + [Unlock(x)];
    CloneParts(x, c);
    LastUnlockTasks(x);
    SectionTasks(c, false, [Unlock(x)]);
    ActWithoutLocks(Create(c), end);
    ActWithoutLocks(Work(x), [Create(c)] + end);
    ActWithoutLocks(Dump(x), [Work(x)] + ([Create(c)] + end));
    ActWithoutLocks(Lock(x), [Dump(x)] + ([Work(x)] + ([Create(c)] + end)));
  }

  lemma WorktreeCallsTasks(p: Id, c: Id, cloneDB: bool)
    ensures WithoutLocks(WorktreeCalls(p, c, cloneDB))
         == [Work(c)] + if cloneDB then [Dump(p), Work(c), Dump(c)] else []
  {
    LastUnlockTasks(p);
    if cloneDB {
      var last := [Dump(c)] + [Unlock(p)];
      WorktreeCallsParts(p, c);
      ActWithoutLocks(Dump(c), [Unlock(p)]);
      SectionTasks(c, false, last);
      ActWithoutLocks(Dump(p), Section(c, false) + last);
      SectionTasks(c, false, [Dump(p)] + (Section(c, false) + last));
    } else {
      SectionTasks(c, false, [Unlock(p)]);
    }
  }

  lemma WorktreeStartTasks(p: Id, c: Id, calls: seq<Act>)
    ensures WithoutLocks([Lock(p)] + ([Work(p)] + ([Create(c)] + calls)))
         == [Work(p)] + ([Create(c)] + WithoutLocks(calls))
  {
    ActWithoutLocks(Create(c), calls);
    ActWithoutLocks(Work(p), [Create(c)] + calls);
    ActWithoutLocks(Lock(p), [Work(p)] + ([Create(c)] + calls));
  }

  lemma PerhapsCreateTasks(p: Id, create: bool, todo: seq<Act>)
    ensures WithoutLocks(if create then [Create(p)] + todo else todo)
         == (if create then [Create(p)] else []) + WithoutLocks(todo)
  {
    ActWithoutLocks(Create(p), todo);
  }

  lemma WorktreeTaskParts(p: Id, c: Id, copy: seq<Act>)
    ensures [Work(p)] + ([Create(c)] + ([Work(c)] + copy)) == [Work(p), Create(c), Work(c)] + copy
  {
  }

  lemma WorktreeTasks(p: Id, createParent: bool, c: Id, cloneDB: bool)
    ensures WithoutLocks(Script(CreateWorktree(p, createParent, c, cloneDB)))
         == (if createParent then [Create(p)] else [])
            + ([Work(p), Create(c), Work(c)] + if cloneDB then [Dump(p), Work(c), Dump(c)] else [])
  {
    var calls := WorktreeCalls(p, c, cloneDB);
    WorktreeParts(p, createParent, c, cloneDB);
    WorktreeCallsTasks(p, c, cloneDB);
    WorktreeStartTasks(p, c, calls);
    PerhapsCreateTasks(p, createParent, [Lock(p)] + ([Work(p)] + ([Create(c)] + calls)));
    WorktreeTaskParts(p, c, if cloneDB then [Dump(p), Work(c), Dump(c)] else []);
  }

  /** An operation's program with the locks erased is its list of tasks. */
  lemma ScriptTasks(op: Op)
    ensures WithoutLocks(Script(op)) == Tasks(op)
  {
    match op {
      case AddSite(x) => ActWithoutLocks(Create(x), []);
      case Locked(x) => OneSectionTasks(x, false);
      case LockedDump(x) => OneSectionTasks(x, true);
      case Delete(x) =>
        OneSectionTasks(x, true);
        ActWithoutLocks(Cascade(x), Section(x, true));
      case Clone(x, c) => CloneTasks(x, c);
      case CreateWorktree(p, createParent, c, cloneDB) => WorktreeTasks(p, createParent, c, cloneDB);
      case Migrate(x) => MigrateTasks(x);
    }
  }

  lemma {:induction false} CascadeTasks(cs: seq<Id>)
    ensures WithoutLocks(CascadeScript(cs)) == DeleteTasks(cs)
  {
    if cs != [] {
      ScriptTasks(Delete(cs[0]));
      CascadeTasks(cs[1..]);
      WithoutLocksOfConcat(Script(Delete(cs[0])), CascadeScript(cs[1..]));
    }
  }

  /** Every goroutine but the dropouts has left to do what its list says. */
  ghost predicate Erased(s: State, lists: map<Tid, seq<Act>>, out: set<Tid>) {
    forall t | t in s.threads && t !in out :: t in lists && WithoutLocks(s.threads[t].todo) == lists[t]
  }

  lemma MoveErased(s: State, lists: map<Tid, seq<Act>>, out: set<Tid>, m: Move)
    requires Erased(s, lists, out) && Enabled(s, m)
    requires m.SkipCall? || m.Bail? ==> m.t in out
    ensures Erased(Do(s, m), Plain(lists, m), out)
  {
    match m {
      case Spawn(t, op) => ScriptTasks(op);
      case ReadChildren(t, cs) =>
        CascadeTasks(cs);
        WithoutLocksOfConcat(CascadeScript(cs), s.threads[t].todo[1..]);
      case _ =>
    }
  }

  lemma {:induction false} RunErased(s: State, lists: map<Tid, seq<Act>>, out: set<Tid>, moves: seq<Move>)
    requires Erased(s, lists, out) && IsRun(s, moves) && Dropouts(moves) <= out
    ensures Erased(After(s, moves), PlainRun(lists, moves), out)
    decreases |moves|
  {
    if moves != [] {
      assert moves[0] in moves && forall m | m in moves[1..] :: m in moves;
      MoveErased(s, lists, out, moves[0]);
      RunErased(Do(s, moves[0]), Plain(lists, moves[0]), out, moves[1..]);
    }
  }

  /**
   Every run, with its locks erased, is a run of the plain to-do lists: as long as a goroutine drops nothing it has
   left exactly what its operation's tasks, and those of the deletes it cascades to, still hold, in that order.
   */
  lemma TasksAreDone(s0: State, moves: seq<Move>, t: Tid)
    requires Initial(s0) && IsRun(s0, moves)
    requires t in After(s0, moves).threads && t !in Dropouts(moves)
    ensures var lists := PlainRun(map[], moves);
            && t in lists && WithoutLocks(After(s0, moves).threads[t].todo) == lists[t]
            && (After(s0, moves).threads[t].todo == [] ==> lists[t] == [])
  {
    RunErased(s0, map[], Dropouts(moves), moves);
  }

  // ---- Waiting for the holder ----

  /** The sites an operation works on itself. */
  function WorksOn(op: Op): set<Id> {
    match op
    case AddSite(_) => {}
    case Locked(s) => {s}
    case LockedDump(s) => {s}
    case Delete(s) => {s}
    case Clone(s, c) => {s, c}
    case CreateWorktree(p, _, c, _) => {p, c}
    case Migrate(s) => {s}
  }

  /** In every state of the run goroutine `u` owns the site's mutex. */
  ghost predicate OwnsThroughout(s: State, moves: seq<Move>, u: Tid, x: Id)
    requires IsRun(s, moves)
    decreases |moves|
  {
    Owns(s, u, x) && (moves == [] || OwnsThroughout(Do(s, moves[0]), moves[1..], u, x))
  }

  /** Another goroutine keeps what it has to do on the site. */
  ghost predicate Keeps(s: State, t: Tid, x: Id) {
    t in s.threads && Work(x) in s.threads[t].todo
  }

  /** It cannot be about to do it: it would have to own the mutex. */
  lemma NotItsTurn(s: State, ops: map<Tid, Op>, t: Tid, u: Tid, x: Id)
    requires Inv(s) && AllGuarded(s, ops) && Owns(s, u, x) && t != u && Keeps(s, t, x)
    ensures s.threads[t].todo[0] != Work(x)
  {
    assert ThreadOk(s, t, s.threads[t]);
    assert Guarded(ops[t], s.threads[t].held, s.threads[t].todo);
  }

  lemma TailKeeps(todo: seq<Act>, x: Id)
    requires Work(x) in todo && todo[0] != Work(x)
    ensures Work(x) in todo[1..]
  {
    assert todo == [todo[0]] + todo[1..];
  }

  lemma OthersCannotWork(s: State, t: Tid, x: Id, m: Move)
    requires Keeps(s, t, x) && s.threads[t].todo[0] != Work(x) && Enabled(s, m)
    requires m.SkipCall? || m.Bail? ==> m.t != t
    ensures Keeps(Do(s, m), t, x)
  {
    TailKeeps(s.threads[t].todo, x);
  }

  lemma {:induction false} StaysWaiting(s: State, ops: map<Tid, Op>, moves: seq<Move>, t: Tid, u: Tid, x: Id)
    requires Inv(s) && AllGuarded(s, ops) && IsRun(s, moves) && OwnsThroughout(s, moves, u, x)
    requires t != u && Keeps(s, t, x) && t !in Dropouts(moves)
    ensures Keeps(After(s, moves), t, x)
    decreases |moves|
  {
    if moves != [] {
      var m := moves[0];
      assert m in moves && forall n | n in moves[1..] :: n in moves;
      NotItsTurn(s, ops, t, u, x);
      OthersCannotWork(s, t, x, m);
      MoveInv(s, m);
      MoveGuarded(s, ops, m);
      StaysWaiting(Do(s, m), if m.Spawn? then ops[m.t := m.op] else ops, moves[1..], t, u, x);
    }
  }

  lemma TaskInProgram(todo: seq<Act>, act: Act)
    requires act in WithoutLocks(todo)
    ensures act in todo
  {
  }

  lemma Reachable(s0: State, moves: seq<Move>)
    requires Initial(s0) && IsRun(s0, moves)
    ensures Inv(After(s0, moves)) && AllGuarded(After(s0, moves), Started(map[], moves))
  {
    InitialInv(s0);
    RunInv(s0, moves);
    RunGuarded(s0, map[], moves);
  }

  lemma SpawnKeeps(s: State, t: Tid, op: Op, x: Id)
    requires Enabled(s, Spawn(t, op)) && x in WorksOn(op)
    ensures Keeps(Do(s, Spawn(t, op)), t, x)
  {
    ScriptTasks(op);
    TaskInProgram(Script(op), Work(x));
  }

  /**
   As long as one goroutine holds a site, another one whose operation works on that site does not come to its end,
   unless it skips a call or gives up.
   */
  lemma HolderKeepsOthersOut(s0: State, before: seq<Move>, t: Tid, op: Op, during: seq<Move>, u: Tid, x: Id)
    requires Initial(s0) && IsRun(s0, before) && Enabled(After(s0, before), Spawn(t, op))
    requires var s := Do(After(s0, before), Spawn(t, op)); IsRun(s, during) && OwnsThroughout(s, during, u, x)
    requires t != u && x in WorksOn(op) && t !in Dropouts(during)
    ensures Unfinished(After(Do(After(s0, before), Spawn(t, op)), during), t)
  {
    var s := After(s0, before);
    var ops := Started(map[], before);
    Reachable(s0, before);
    MoveInv(s, Spawn(t, op));
    MoveGuarded(s, ops, Spawn(t, op));
    SpawnKeeps(s, t, op, x);
    StaysWaiting(Do(s, Spawn(t, op)), ops[t := op], during, t, u, x);
  }

  // ---- One critical section ----

  /** The operations that hold one site from their first step on it to their last. */
  predicate OneSection(op: Op) {
    op.Locked? || op.LockedDump? || op.Clone? || op.CreateWorktree?
  }

  function Home(op: Op): Id
    requires OneSection(op)
  {
    match op
    case Locked(s) => s
    case LockedDump(s) => s
    case Clone(s, _) => s
    case CreateWorktree(p, _, _, _) => p
  }

  /** If the site is still to be released, that is the last thing to do, and nothing more comes in. */
  ghost predicate ReleasedLast(x: Id, todo: seq<Act>) {
    todo == [] || (!todo[0].Cascade? && (todo[0] == Unlock(x) ==> |todo| == 1) && ReleasedLast(x, todo[1..]))
  }

  lemma ActReleasesLast(x: Id, act: Act, todo: seq<Act>)
    ensures ReleasedLast(x, [act] + todo)
       <==> !act.Cascade? && (act == Unlock(x) ==> todo == []) && ReleasedLast(x, todo)
  {
    assert ([act] + todo)[1..] == todo;
  }

  lemma SectionReleasesLast(x: Id, y: Id, dump: bool, todo: seq<Act>)
    requires y != x || todo == []
    ensures ReleasedLast(x, Section(y, dump) + todo) <==> ReleasedLast(x, todo)
  {
    var last := [Work(y)] + ([Unlock(y)] + todo);
    SectionParts(y, todo);
    ActReleasesLast(x, Unlock(y), todo);
    ActReleasesLast(x, Work(y), [Unlock(y)] + todo);
    ActReleasesLast(x, Dump(y), last);
    ActReleasesLast(x, Lock(y), last);
    ActReleasesLast(x, Lock(y), [Dump(y)] + last);
  }

  lemma OneSectionReleasesLast(x: Id, dump: bool)
    ensures ReleasedLast(x, Section(x, dump))
  {
    SectionReleasesLast(x, x, dump, []);
    assert Section(x, dump) + [] == Section(x, dump);
  }

  lemma LastUnlockReleasesLast(x: Id)
    ensures ReleasedLast(x, [Unlock(x)])
  {
    ActReleasesLast(x, Unlock(x), []);
    assert [Unlock(x)] + [] == [Unlock(x)];
  }

  lemma CloneReleasesLast(x: Id, c: Id)
    requires x != c
    ensures ReleasedLast(x, Script(Clone(x, c)))
  {
    var end := Section(c, false) + [Unlock(x)];
    CloneParts(x, c);
    LastUnlockReleasesLast(x);
    SectionReleasesLast(x, c, false, [Unlock(x)]);
    ActReleasesLast(x, Create(c), end);
    ActReleasesLast(x, Work(x), [Create(c)] + end);
    ActReleasesLast(x, Dump(x), [Work(x)] + ([Create(c)] + end));
    ActReleasesLast(x, Lock(x), [Dump(x)] + ([Work(x)] + ([Create(c)] + end)));
  }

  lemma WorktreeCallsReleaseLast(p: Id, c: Id, cloneDB: bool)
    requires p != c
    ensures ReleasedLast(p, WorktreeCalls(p, c, cloneDB))
  {
    LastUnlockReleasesLast(p);
    if cloneDB {
      var last := [Dump(c)] + [Unlock(p)];
      WorktreeCallsParts(p, c);
      ActReleasesLast(p, Dump(c), [Unlock(p)]);
      SectionReleasesLast(p, c, false, last);
      ActReleasesLast(p, Dump(p), Section(c, false) + last);
      SectionReleasesLast(p, c, false, [Dump(p)] + (Section(c, false) + last));
    } else {
      SectionReleasesLast(p, c, false, [Unlock(p)]);
    }
  }

  lemma WorktreeReleasesLast(p: Id, createParent: bool, c: Id, cloneDB: bool)
    requires p != c
    ensures ReleasedLast(p, Script(CreateWorktree(p, createParent, c, cloneDB)))
  {
    var calls := WorktreeCalls(p, c, cloneDB);
    WorktreeParts(p, createParent, c, cloneDB);
    WorktreeCallsReleaseLast(p, c, cloneDB);
    ActReleasesLast(p, Create(c), calls);
    ActReleasesLast(p, Work(p), [Create(c)] + calls);
    ActReleasesLast(p, Lock(p), [Work(p)] + ([Create(c)] + calls));
    ActReleasesLast(p, Create(p), [Lock(p)] + ([Work(p)] + ([Create(c)] + calls)));
  }

  lemma ScriptReleasesLast(op: Op)
    requires OneSection(op)
    requires op.Clone? ==> op.child != op.site
    requires op.CreateWorktree? ==> op.child != op.parent
    ensures ReleasedLast(Home(op), Script(op))
  {
    match op {
      case Locked(x) => OneSectionReleasesLast(x, false);
      case LockedDump(x) => OneSectionReleasesLast(x, true);
      case Clone(x, c) => CloneReleasesLast(x, c);
      case CreateWorktree(p, createParent, c, cloneDB) => WorktreeReleasesLast(p, createParent, c, cloneDB);
    }
  }

  ghost predicate AllReleaseLast(s: State, ops: map<Tid, Op>, out: set<Tid>) {
    forall t | t in s.threads && t !in out ::
      t in ops && (OneSection(ops[t]) ==> ReleasedLast(Home(ops[t]), s.threads[t].todo))
  }

  lemma MoveReleasesLast(s: State, ops: map<Tid, Op>, out: set<Tid>, m: Move)
    requires AllReleaseLast(s, ops, out) && Enabled(s, m)
    requires m.SkipCall? || m.Bail? ==> m.t in out
    ensures AllReleaseLast(Do(s, m), if m.Spawn? then ops[m.t := m.op] else ops, out)
  {
    if m.Spawn? && OneSection(m.op) {
      ScriptReleasesLast(m.op);
    }
  }

  lemma {:induction false} RunReleasesLast(s: State, ops: map<Tid, Op>, out: set<Tid>, moves: seq<Move>)
    requires AllReleaseLast(s, ops, out) && IsRun(s, moves) && Dropouts(moves) <= out
    ensures AllReleaseLast(After(s, moves), Started(ops, moves), out)
    decreases |moves|
  {
    if moves != [] {
      var m := moves[0];
      assert m in moves && forall n | n in moves[1..] :: n in moves;
      MoveReleasesLast(s, ops, out, m);
      RunReleasesLast(Do(s, m), if m.Spawn? then ops[m.t := m.op] else ops, out, moves[1..]);
    }
  }

  /** Such an operation lets go of its site at its very end: whoever is about to release it has nothing else to do. */
  lemma ReleasesAtTheEnd(s0: State, moves: seq<Move>, t: Tid)
    requires Initial(s0) && IsRun(s0, moves) && Unfinished(After(s0, moves), t) && t !in Dropouts(moves)
    ensures var op := Started(map[], moves);
            var todo := After(s0, moves).threads[t].todo;
            t in op && (OneSection(op[t]) && todo[0] == Unlock(Home(op[t])) ==> |todo| == 1)
  {
    RunReleasesLast(s0, map[], Dropouts(moves), moves);
  }
}
