/**
 * The health runner: what a batch of checks publishes, since when each finding has been there, and how a check
 * that overruns its budget is held back. Times are integers on a clock that never goes back; batches are serial.
 */
module HealthRunner {
  import opened Sorting
  import opened Strings
  import opened Wrappers

  const INFO := 1
  const WARN := 2
  const BLOCKER := 3
  const SUSPEND_BUDGET_TRIPS := 3

  /** `text` stands for everything shown to the user. */
  datatype Finding = Finding(id: string, severity: int, dedupKey: string, text: string, detected: int, stale: bool)

  /** One check's run in a batch, in the order the results arrive. */
  datatype Done = Done(check: string, startedAt: int, recordedAt: int, over: bool, err: Option<string>,
                       findings: seq<Finding>)

  datatype Batch = Batch(at: int, results: seq<Done>, publishedAt: int)

  datatype State = State(firstSeen: map<string, int>, trips: map<string, nat>, nextRunAt: map<string, int>,
                         published: seq<Finding>, generation: nat)

  const INITIAL := State(map[], map[], map[], [], 0)

  // ---- Publishing ----

  function SeverityString(severity: int): string {
    if severity == INFO then "info"
    else if severity == WARN then "warn"
    else if severity == BLOCKER then "blocker"
    else "unknown"
  }

  function Key(f: Finding): string {
    f.id + "|" + SeverityString(f.severity) + "|" + f.dedupKey
  }

  function KeySet(collected: seq<Finding>): set<string> {
    set i | 0 <= i < |collected| :: Key(collected[i])
  }

  lemma KeySetExtend(collected: seq<Finding>, f: Finding)
    ensures KeySet(collected + [f]) == KeySet(collected) + {Key(f)}
  {
    var longer := collected + [f];
    assert longer[|collected|] == f;
    assert forall i | 0 <= i < |collected| :: longer[i] == collected[i];
  }

  function Since(firstSeen: map<string, int>, key: string, now: int): int {
    if key in firstSeen then firstSeen[key] else now
  }

  function Stamped(collected: seq<Finding>, firstSeen: map<string, int>, now: int): (r: seq<Finding>)
    ensures |r| == |collected|
    ensures forall i | 0 <= i < |r| ::
      r[i] == collected[i].(detected := Since(firstSeen, Key(collected[i]), now))
  {
    if collected == [] then []
    else
      var front, f := collected[..|collected| - 1], collected[|collected| - 1];
      Stamped(front, firstSeen, now) + [f.(detected := Since(firstSeen, Key(f), now))]
  }

  /** The times after dating: what was remembered, and `now` for each key that is new. */
  function Remembering(firstSeen: map<string, int>, keys: set<string>, now: int): map<string, int> {
    map key | key in firstSeen.Keys + keys :: Since(firstSeen, key, now)
  }

  lemma OneMoreStamp(done: seq<Finding>, f: Finding, firstSeen: map<string, int>, now: int)
    ensures KeySet(done + [f]) == KeySet(done) + {Key(f)}
    ensures Stamped(done + [f], firstSeen, now)
         == Stamped(done, firstSeen, now) + [f.(detected := Since(firstSeen, Key(f), now))]
  {
    KeySetExtend(done, f);
  }

  lemma OneMoreMemory(firstSeen: map<string, int>, keys: set<string>, key: string, now: int)
    ensures var m := Remembering(firstSeen, keys, now);
            && (key in m ==> m[key] == Since(firstSeen, key, now) && Remembering(firstSeen, keys + {key}, now) == m)
            && (key !in m ==> Since(firstSeen, key, now) == now
                              && Remembering(firstSeen, keys + {key}, now) == m[key := now])
  {
  }

  /** The times kept: those of the keys still present. */
  function Refreshed(collected: seq<Finding>, firstSeen: map<string, int>, now: int): map<string, int> {
    map key | key in KeySet(collected) :: Since(firstSeen, key, now)
  }

  /** Blockers first, then by id, then by key within the id. */
  predicate Before(a: Finding, b: Finding) {
    a.severity > b.severity
    || (a.severity == b.severity && (Less(a.id, b.id) || (a.id == b.id && !Less(b.dedupKey, a.dedupKey))))
  }

  lemma BeforeIsPreorder()
    ensures Preorder(Before)
  {
    forall a, b, c
      ensures Before(a, b) || Before(b, a)
      ensures Before(a, b) && Before(b, c) ==> Before(a, c)
    {
      LessIsStrictOrder(a.id, b.id, c.id);
      LessIsStrictOrder(b.id, c.id, a.id);
      LessIsStrictOrder(a.dedupKey, b.dedupKey, c.dedupKey);
      LessIsStrictOrder(b.dedupKey, a.dedupKey, c.dedupKey);
      LessIsStrictOrder(c.dedupKey, a.dedupKey, b.dedupKey);
      LessIsStrictOrder(c.dedupKey, b.dedupKey, a.dedupKey);
    }
  }

  ghost function Published(s: State, collected: seq<Finding>, now: int): State {
    s.(firstSeen := Refreshed(collected, s.firstSeen, now),
       published := Sort(Stamped(collected, s.firstSeen, now), Before),
       generation := s.generation + 1)
  }

  // ---- Budgets ----

  function TripsOf(trips: map<string, nat>, check: string): nat {
    if check in trips then trips[check] else 0
  }

  /** Not yet allowed to run; a check with no entry always is. */
  predicate Suspended(nextRunAt: map<string, int>, check: string, now: int) {
    check in nextRunAt && nextRunAt[check] > now
  }

  /** What a finished run does to the book-keeping of its check. */
  function Recorded(s: State, d: Done, minCadence: nat): State {
    if !d.over then s.(trips := s.trips - {d.check})
    else
      var n := TripsOf(s.trips, d.check) + 1;
      if n >= SUSPEND_BUDGET_TRIPS then
        s.(trips := s.trips[d.check := 0], nextRunAt := s.nextRunAt[d.check := d.recordedAt + minCadence])
      else s.(trips := s.trips[d.check := n])
  }

  function RecordedAll(s: State, results: seq<Done>, minCadence: nat): State {
    if results == [] then s
    else Recorded(RecordedAll(s, results[..|results| - 1], minCadence), results[|results| - 1], minCadence)
  }

  // ---- A batch ----

  function MarkStale(findings: seq<Finding>): (r: seq<Finding>)
    ensures |r| == |findings| && forall i | 0 <= i < |r| :: r[i] == findings[i].(stale := true)
  {
    if findings == [] then [] else MarkStale(findings[..|findings| - 1]) + [findings[|findings| - 1].(stale := true)]
  }

  /** A failed check contributes one warning in place of its findings. */
  function Contribution(d: Done): seq<Finding> {
    match d.err
    case Some(text) => [Finding("check-failed", WARN, d.check, text, 0, false)]
    case None => if d.over then MarkStale(d.findings) else d.findings
  }

  function Collected(results: seq<Done>): seq<Finding> {
    if results == [] then []
    else Collected(results[..|results| - 1]) + Contribution(results[|results| - 1])
  }

  ghost predicate DistinctChecks(results: seq<Done>) {
    forall i, j | 0 <= i < j < |results| :: results[i].check != results[j].check
  }

  /** Each check runs at most once in a batch, only if it is not suspended, and within the batch's time. */
  ghost predicate Possible(s: State, b: Batch) {
    && DistinctChecks(b.results)
    && (forall d | d in b.results :: !Suspended(s.nextRunAt, d.check, b.at))
    && (forall d | d in b.results :: b.at <= d.startedAt <= d.recordedAt <= b.publishedAt)
  }

  ghost function BatchStep(s: State, b: Batch, minCadence: nat): State {
    Published(RecordedAll(s, b.results, minCadence), Collected(b.results), b.publishedAt)
  }

  /** How far dating has come once `done` has been dated. */
  ghost predicate Dated(done: seq<Finding>, firstSeen: map<string, int>, now: int,
                        collected: seq<Finding>, stillPresent: set<string>, seen: map<string, int>)
  {
    && collected == Stamped(done, firstSeen, now)
    && stillPresent == KeySet(done)
    && seen == Remembering(firstSeen, stillPresent, now)
  }

  lemma Snoc(s: seq<Finding>, i: nat)
    requires i < |s|
    ensures s[..i + 1] == s[..i] + [s[i]]
  {
  }

  lemma DateNone(firstSeen: map<string, int>, now: int)
    ensures Dated([], firstSeen, now, [], {}, firstSeen)
  {
    assert Remembering(firstSeen, {}, now) == firstSeen;
  }

  lemma DateOne(done: seq<Finding>, f: Finding, firstSeen: map<string, int>, now: int,
                collected: seq<Finding>, stillPresent: set<string>, seen: map<string, int>)
    requires Dated(done, firstSeen, now, collected, stillPresent, seen)
    ensures var key := Key(f);
            if key in seen
            then Dated(done + [f], firstSeen, now, collected + [f.(detected := seen[key])], stillPresent + {key}, seen)
            else Dated(done + [f], firstSeen, now, collected + [f.(detected := now)], stillPresent + {key},
                       seen[key := now])
  {
    OneMoreStamp(done, f, firstSeen, now);
    OneMoreMemory(firstSeen, stillPresent, Key(f), now);
  }

  /** Dates the findings, remembering the keys that are new; also the set of keys seen. */
  method Stamp(input: seq<Finding>, firstSeen: map<string, int>, now: int)
    returns (collected: seq<Finding>, stillPresent: set<string>, seen: map<string, int>)
    ensures Dated(input, firstSeen, now, collected, stillPresent, seen)
  {
    collected, stillPresent, seen := [], {}, firstSeen;
    DateNone(firstSeen, now);
    assert input[..0] == [];
    for i := 0 to |input|
      invariant Dated(input[..i], firstSeen, now, collected, stillPresent, seen)
    {
      var f := input[i];
      var key := Key(f);
      DateOne(input[..i], f, firstSeen, now, collected, stillPresent, seen);
      Snoc(input, i);
      stillPresent := stillPresent + {key};
      if key in seen {
        collected := collected + [f.(detected := seen[key])];
      } else {
        collected := collected + [f.(detected := now)];
        seen := seen[key := now];
      }
    }
    assert input[..|input|] == input;
  }

  /** What is remembered of the keys still present. */
  function Forgetting(seen: map<string, int>, stillPresent: set<string>): map<string, int> {
    map key | key in seen && key in stillPresent :: seen[key]
  }

  lemma ForgetGone(input: seq<Finding>, firstSeen: map<string, int>, now: int,
                   collected: seq<Finding>, stillPresent: set<string>, seen: map<string, int>)
    requires Dated(input, firstSeen, now, collected, stillPresent, seen)
    ensures collected == Stamped(input, firstSeen, now)
    ensures Forgetting(seen, stillPresent) == Refreshed(input, firstSeen, now)
  {
  }

  lemma PublishedState(s: State, input: seq<Finding>, now: int,
                       collected: seq<Finding>, stillPresent: set<string>, seen: map<string, int>)
    requires Dated(input, s.firstSeen, now, collected, stillPresent, seen)
    ensures Published(s, input, now) == s.(firstSeen := Forgetting(seen, stillPresent),
                                           published := Sort(collected, Before), generation := s.generation + 1)
  {
    ForgetGone(input, s.firstSeen, now, collected, stillPresent, seen);
  }

  class Runner {
    const minCadence: nat
    var firstSeen: map<string, int>
    var budgetTrips: map<string, nat>
    var nextRunAt: map<string, int>
    var findings: seq<Finding>
    var generation: nat

    ghost function Abstract(): State
      reads this
    {
      State(firstSeen, budgetTrips, nextRunAt, findings, generation)
    }

    constructor (minCadence: nat)
      ensures Abstract() == INITIAL && this.minCadence == minCadence
    {
      this.minCadence := minCadence;
      firstSeen, budgetTrips, nextRunAt, findings, generation := map[], map[], map[], [], 0;
    }

    method RecordBudget(d: Done)
      modifies this
      ensures Abstract() == Recorded(old(Abstract()), d, minCadence)
    {
      if !d.over {
        budgetTrips := budgetTrips - {d.check};
        return;
      }
      budgetTrips := budgetTrips[d.check := (if d.check in budgetTrips then budgetTrips[d.check] else 0) + 1];
      if budgetTrips[d.check] >= SUSPEND_BUDGET_TRIPS {
        nextRunAt := nextRunAt[d.check := d.recordedAt + minCadence];
        budgetTrips := budgetTrips[d.check := 0];
      }
    }

    method Publish(input: seq<Finding>, now: int)
      modifies this
      ensures Abstract() == Published(old(Abstract()), input, now)
    {
      var collected, stillPresent, seen := Stamp(input, firstSeen, now);
      PublishedState(Abstract(), input, now, collected, stillPresent, seen);
      firstSeen := Forgetting(seen, stillPresent);
      findings := Sort(collected, Before);
      generation := generation + 1;
    }

    method RunBatch(b: Batch)
      requires Possible(Abstract(), b)
      modifies this
      ensures Abstract() == BatchStep(old(Abstract()), b, minCadence)
      ensures PublishesResults(findings, b.results)
    {
      ghost var before := Abstract();
      var collected: seq<Finding> := [];
      for i := 0 to |b.results|
        invariant Abstract() == RecordedAll(old(Abstract()), b.results[..i], minCadence)
        invariant collected == Collected(b.results[..i])
      {
        var res := b.results[i];
        assert b.results[..i + 1][..i] == b.results[..i];
        RecordBudget(res);
        if res.err.Some? {
          collected := collected + [Finding("check-failed", WARN, res.check, res.err.value, 0, false)];
          continue;
        }
        if res.over {
          collected := collected + MarkStale(res.findings);
        } else {
          collected := collected + res.findings;
        }
      }
      assert b.results[..|b.results|] == b.results;
      Publish(collected, b.publishedAt);
      BatchPublishes(before, b, minCadence);
    }
  }

  // ---- Every run of batches ----

  ghost function Run(batches: seq<Batch>, minCadence: nat): State {
    if batches == [] then INITIAL
    else BatchStep(Run(batches[..|batches| - 1], minCadence), batches[|batches| - 1], minCadence)
  }

  /** Batches follow one another in time, and each is possible where the ones before it lead. */
  ghost predicate Serial(batches: seq<Batch>, minCadence: nat) {
    batches != [] ==>
      var front, last := batches[..|batches| - 1], batches[|batches| - 1];
      && Serial(front, minCadence)
      && Possible(Run(front, minCadence), last)
      && last.at <= last.publishedAt
      && (front != [] ==> front[|front| - 1].publishedAt <= last.at)
  }

  /** The batch holds a finding with this key. */
  predicate Holds(b: Batch, key: string) {
    key in KeySet(Collected(b.results))
  }

  /** Where the unbroken stretch of elements that satisfy `holds`, reaching up to the last one, begins. */
  function StretchStart<T>(s: seq<T>, holds: T -> bool): (k: nat)
    requires s != []
    ensures k < |s|
  {
    if |s| > 1 && holds(s[|s| - 2]) then StretchStart(s[..|s| - 1], holds) else |s| - 1
  }

  lemma {:induction false} StretchStartMeaning<T>(s: seq<T>, holds: T -> bool, i: nat)
    requires s != [] && holds(s[|s| - 1])
    ensures StretchStart(s, holds) <= i < |s| ==> holds(s[i])
    ensures i + 1 == StretchStart(s, holds) ==> !holds(s[i])
  {
    if |s| > 1 && holds(s[|s| - 2]) {
      StretchStartMeaning(s[..|s| - 1], holds, i);
    }
  }

  /** The first batch of the unbroken streak of batches, up to the last, that hold the key. */
  function StreakStart(batches: seq<Batch>, key: string): (k: nat)
    requires batches != []
    ensures k < |batches|
  {
    StretchStart(batches, b => Holds(b, key))
  }

  /** It is that batch: the key is in every batch from there on and not in the one before. */
  lemma StreakStartMeaning(batches: seq<Batch>, key: string, i: nat)
    requires batches != [] && Holds(batches[|batches| - 1], key)
    ensures StreakStart(batches, key) <= i < |batches| ==> Holds(batches[i], key)
    ensures i + 1 == StreakStart(batches, key) ==> !Holds(batches[i], key)
  {
    StretchStartMeaning(batches, b => Holds(b, key), i);
  }

  lemma StreakGoesOn(batches: seq<Batch>, key: string)
    requires |batches| > 1
    ensures StreakStart(batches, key)
         == if Holds(batches[|batches| - 2], key) then StreakStart(batches[..|batches| - 1], key) else |batches| - 1
  {
  }

  lemma {:induction false} RecordingKeepsFirstSeen(s: State, results: seq<Done>, minCadence: nat)
    ensures RecordedAll(s, results, minCadence).firstSeen == s.firstSeen
  {
    if results != [] {
      RecordingKeepsFirstSeen(s, results[..|results| - 1], minCadence);
    }
  }

  /**
   * After any batches, the remembered keys are exactly those of the last batch, each with the time at which the
   * streak it belongs to was first published.
   */
  lemma {:induction false} FirstSeenIsStreakStart(batches: seq<Batch>, minCadence: nat, key: string)
    requires batches != []
    ensures var seen := Run(batches, minCadence).firstSeen;
            && (key in seen <==> Holds(batches[|batches| - 1], key))
            && (key in seen ==> seen[key] == batches[StreakStart(batches, key)].publishedAt)
  {
    var front, last := batches[..|batches| - 1], batches[|batches| - 1];
    var s := Run(front, minCadence);
    RecordingKeepsFirstSeen(s, last.results, minCadence);
    if front != [] {
      StreakGoesOn(batches, key);
      FirstSeenIsStreakStart(front, minCadence, key);
    }
  }

  /** Dated by the first publication of the unbroken streak it belongs to. */
  predicate DatedByStreak(f: Finding, batches: seq<Batch>)
    requires batches != []
  {
    Holds(batches[|batches| - 1], Key(f)) && f.detected == batches[StreakStart(batches, Key(f))].publishedAt
  }

  lemma StampedAreDated(batches: seq<Batch>, minCadence: nat, i: nat)
    requires batches != []
    requires i < |Collected(batches[|batches| - 1].results)|
    ensures var last := batches[|batches| - 1];
            var front := Run(batches[..|batches| - 1], minCadence).firstSeen;
            DatedByStreak(Stamped(Collected(last.results), front, last.publishedAt)[i], batches)
  {
    var last := batches[|batches| - 1];
    var s := Run(batches[..|batches| - 1], minCadence);
    var collected := Collected(last.results);
    var f := Stamped(collected, s.firstSeen, last.publishedAt)[i];
    assert Key(f) == Key(collected[i]);
    RecordingKeepsFirstSeen(s, last.results, minCadence);
    FirstSeenIsStreakStart(batches, minCadence, Key(f));
  }

  lemma PublishedFindingIsDated(batches: seq<Batch>, minCadence: nat, f: Finding)
    requires batches != [] && f in Run(batches, minCadence).published
    ensures DatedByStreak(f, batches)
  {
    var last := batches[|batches| - 1];
    var s := Run(batches[..|batches| - 1], minCadence);
    RecordingKeepsFirstSeen(s, last.results, minCadence);
    var dated := Stamped(Collected(last.results), s.firstSeen, last.publishedAt);
    assert f in multiset(Sort(dated, Before));
    assert f in dated;
    var i :| 0 <= i < |dated| && dated[i] == f;
    StampedAreDated(batches, minCadence, i);
  }

  lemma {:induction false} RecordingKeepsGeneration(s: State, results: seq<Done>, minCadence: nat)
    ensures RecordedAll(s, results, minCadence).generation == s.generation
  {
    if results != [] {
      RecordingKeepsGeneration(s, results[..|results| - 1], minCadence);
    }
  }

  /** The generation counts the batches published. */
  lemma {:induction false} GenerationCountsBatches(batches: seq<Batch>, minCadence: nat)
    ensures Run(batches, minCadence).generation == |batches|
  {
    if batches != [] {
      var front, last := batches[..|batches| - 1], batches[|batches| - 1];
      GenerationCountsBatches(front, minCadence);
      RecordingKeepsGeneration(Run(front, minCadence), last.results, minCadence);
    }
  }

  /** Two findings apart from the times they carry. */
  predicate SameButTime(f: Finding, g: Finding) {
    f == g.(detected := f.detected)
  }

  /**
   * What is published after any batches: the last batch's findings, each once, in display order with ties in the
   * order of arrival, each dated by the first publication of its unbroken streak.
   */
  lemma PublishedFindings(batches: seq<Batch>, minCadence: nat) returns (dated: seq<Finding>)
    requires batches != []
    ensures var published, collected := Run(batches, minCadence).published, Collected(batches[|batches| - 1].results);
            && |dated| == |collected| && (forall i | 0 <= i < |dated| :: SameButTime(dated[i], collected[i]))
            && multiset(published) == multiset(dated)
            && Sorted(published, Before)
            && (forall x :: Ties(published, x, Before) == Ties(dated, x, Before))
            && (forall f | f in published :: DatedByStreak(f, batches))
  {
    var last := batches[|batches| - 1];
    var s := Run(batches[..|batches| - 1], minCadence);
    RecordingKeepsFirstSeen(s, last.results, minCadence);
    dated := Stamped(Collected(last.results), s.firstSeen, last.publishedAt);
    BeforeIsPreorder();
    SortSorts(dated, Before);
    forall x
      ensures Ties(Sort(dated, Before), x, Before) == Ties(dated, x, Before)
    {
      SortIsStable(dated, x, Before);
    }
    forall f | f in Run(batches, minCadence).published
      ensures DatedByStreak(f, batches)
    {
      PublishedFindingIsDated(batches, minCadence, f);
    }
  }

  // ---- What a batch publishes, result by result ----

  /** How many findings a result leads to: its own, or one that says that the check failed. */
  function Count(d: Done): nat {
    if d.err.None? then |d.findings| else 1
  }

  function CountAll(results: seq<Done>): nat {
    if results == [] then 0 else CountAll(results[..|results| - 1]) + Count(results[|results| - 1])
  }

  /** Finding `i` of a result, its time aside: marked if the check overran, a warning if it failed. */
  ghost predicate IsFindingOf(f: Finding, d: Done, i: nat)
    requires i < Count(d)
  {
    match d.err
    case None => SameButTime(f, d.findings[i].(stale := d.over || d.findings[i].stale))
    case Some(text) => SameButTime(f, Finding("check-failed", WARN, d.check, text, 0, false))
  }

  /** The findings are those of the results, one result after the other. */
  ghost predicate Lists(findings: seq<Finding>, results: seq<Done>) {
    && |findings| == CountAll(results)
    && forall j | 0 <= j < |results| :: ListsAt(findings, results, j)
  }

  ghost predicate ListsAt(findings: seq<Finding>, results: seq<Done>, j: nat)
    requires j < |results|
  {
    var n := CountAll(results[..j]);
    && n + Count(results[j]) <= |findings|
    && forall k | n <= k < n + Count(results[j]) :: IsFindingOf(findings[k], results[j], k - n)
  }

  ghost predicate PublishesResults(published: seq<Finding>, results: seq<Done>) {
    exists dated :: multiset(published) == multiset(dated) && Lists(dated, results)
  }

  lemma ContributionLists(before: seq<Finding>, front: seq<Done>, d: Done)
    requires Lists(before, front)
    ensures Lists(before + Contribution(d), front + [d])
  {
    var findings, results := before + Contribution(d), front + [d];
    assert results[..|front|] == front;
    forall j | 0 <= j < |results|
      ensures ListsAt(findings, results, j)
    {
      if j < |front| {
        assert ListsAt(before, front, j);
        assert front[..j] == results[..j];
      }
    }
  }

  lemma {:induction false} CollectedLists(results: seq<Done>)
    ensures Lists(Collected(results), results)
  {
    if results != [] {
      var front, last := results[..|results| - 1], results[|results| - 1];
      CollectedLists(front);
      ContributionLists(Collected(front), front, last);
      assert front + [last] == results;
    }
  }

  lemma DatingKeepsLists(collected: seq<Finding>, dated: seq<Finding>, results: seq<Done>)
    requires |dated| == |collected| && forall i | 0 <= i < |dated| :: SameButTime(dated[i], collected[i])
    requires Lists(collected, results)
    ensures Lists(dated, results)
  {
    forall j | 0 <= j < |results|
      ensures ListsAt(dated, results, j)
    {
      assert ListsAt(collected, results, j);
    }
  }

  /** What a batch publishes is the findings of its results, each with the mark it should have, and nothing else. */
  lemma BatchPublishes(s: State, b: Batch, minCadence: nat)
    ensures PublishesResults(BatchStep(s, b, minCadence).published, b.results)
  {
    var collected := Collected(b.results);
    RecordingKeepsFirstSeen(s, b.results, minCadence);
    var dated := Stamped(collected, s.firstSeen, b.publishedAt);
    CollectedLists(b.results);
    DatingKeepsLists(collected, dated, b.results);
    BeforeIsPreorder();
    SortSorts(dated, Before);
  }

  /** So after any batches the last one's findings are published, result by result. */
  lemma LastBatchIsPublished(batches: seq<Batch>, minCadence: nat)
    requires batches != []
    ensures PublishesResults(Run(batches, minCadence).published, batches[|batches| - 1].results)
  {
    BatchPublishes(Run(batches[..|batches| - 1], minCadence), batches[|batches| - 1], minCadence);
  }

  lemma PublishedIsSorted(batches: seq<Batch>, minCadence: nat)
    ensures Sorted(Run(batches, minCadence).published, Before)
  {
    if batches != [] {
      var front, last := batches[..|batches| - 1], batches[|batches| - 1];
      var s := RecordedAll(Run(front, minCadence), last.results, minCadence);
      BeforeIsPreorder();
      SortSorts(Stamped(Collected(last.results), s.firstSeen, last.publishedAt), Before);
    }
  }

  lemma BeforeMeans(f: Finding, g: Finding)
    requires Before(f, g)
    ensures g.severity <= f.severity
    ensures f.severity == g.severity ==> f.id == g.id || Less(f.id, g.id)
    ensures f.severity == g.severity && f.id == g.id ==> f.dedupKey == g.dedupKey || Less(f.dedupKey, g.dedupKey)
  {
    LessIsStrictOrder(f.id, g.id, "");
    LessIsStrictOrder(f.dedupKey, g.dedupKey, "");
  }

  /** Blockers first; within a severity ids, and within an id discriminators, are in byte order. */
  lemma DisplayOrder(batches: seq<Batch>, minCadence: nat, i: nat, j: nat)
    requires i < j < |Run(batches, minCadence).published|
    ensures var f, g := Run(batches, minCadence).published[i], Run(batches, minCadence).published[j];
            && g.severity <= f.severity
            && (f.severity == g.severity ==> f.id == g.id || Less(f.id, g.id))
            && (f.severity == g.severity && f.id == g.id ==> f.dedupKey == g.dedupKey || Less(f.dedupKey, g.dedupKey))
  {
    PublishedIsSorted(batches, minCadence);
    BeforeMeans(Run(batches, minCadence).published[i], Run(batches, minCadence).published[j]);
  }

  // ---- The key ----

  predicate Declared(severity: int) {
    severity in {INFO, WARN, BLOCKER}
  }

  lemma CutAtBar(a: string, s: string, b: string, t: string)
    requires '|' !in a && '|' !in b && a + "|" + s == b + "|" + t
    ensures a == b && s == t
  {
    var x, y := a + "|" + s, b + "|" + t;
    assert x[|a|] == '|' && y[|b|] == '|';
    assert forall i | 0 <= i < |a| :: x[i] == a[i];
    assert forall i | 0 <= i < |b| :: y[i] == b[i];
    assert |a| == |b|;
    assert a == x[..|a|] == y[..|b|] == b;
    assert s == x[|a| + 1..] == y[|b| + 1..] == t;
  }

  /** Findings with bar-free ids and declared severities share a key only if they are the same observation. */
  lemma KeyIsInjective(f: Finding, g: Finding)
    requires '|' !in f.id && '|' !in g.id && Declared(f.severity) && Declared(g.severity)
    ensures Key(f) == Key(g) <==> f.id == g.id && f.severity == g.severity && f.dedupKey == g.dedupKey
  {
    if Key(f) == Key(g) {
      var s, t := SeverityString(f.severity), SeverityString(g.severity);
      assert Key(f) == f.id + "|" + (s + "|" + f.dedupKey);
      assert Key(g) == g.id + "|" + (t + "|" + g.dedupKey);
      CutAtBar(f.id, s + "|" + f.dedupKey, g.id, t + "|" + g.dedupKey);
      CutAtBar(s, f.dedupKey, t, g.dedupKey);
      assert "info"[0] != "warn"[0] && "info"[0] != "blocker"[0] && "warn"[0] != "blocker"[0];
    }
  }

  lemma SeverityHasNoBar(severity: int)
    ensures '|' !in SeverityString(severity)
  {
  }

  lemma SeverityStrings(s: int, t: int)
    ensures SeverityString(s) == SeverityString(t) <==> s == t || (!Declared(s) && !Declared(t))
  {
    assert "info"[0] != "warn"[0] && "info"[0] != "blocker"[0] && "info"[0] != "unknown"[0];
    assert "warn"[0] != "blocker"[0] && "warn"[0] != "unknown"[0] && "blocker"[0] != "unknown"[0];
  }

  /**
   * Under one id, whatever its characters, a key tells findings apart by severity and discriminator, save that all
   * undeclared severities look the same.
   */
  lemma KeyUnderOneId(f: Finding, g: Finding)
    requires f.id == g.id
    ensures Key(f) == Key(g) <==>
      f.dedupKey == g.dedupKey && (f.severity == g.severity || (!Declared(f.severity) && !Declared(g.severity)))
  {
    var s, t := SeverityString(f.severity), SeverityString(g.severity);
    var x, y := s + "|" + f.dedupKey, t + "|" + g.dedupKey;
    SeverityStrings(f.severity, g.severity);
    assert Key(f) == f.id + "|" + x && Key(g) == g.id + "|" + y;
    assert Key(f)[|f.id| + 1..] == x && Key(g)[|g.id| + 1..] == y;
    if x == y {
      SeverityHasNoBar(f.severity);
      SeverityHasNoBar(g.severity);
      CutAtBar(s, f.dedupKey, t, g.dedupKey);
    }
  }

  /** A severity that may occur: any, or the declared ones only. */
  predicate Allowed(severity: int, declaredOnly: bool) {
    declaredOnly ==> Declared(severity)
  }

  /** `b` goes on from `a` with a bar and a severity, and there it ends or has another bar. */
  predicate ExtendsBy(a: string, b: string, severity: int) {
    var start := a + "|" + SeverityString(severity);
    b == start || start + "|" <= b
  }

  ghost predicate Extends(a: string, b: string, declaredOnly: bool) {
    exists severity :: Allowed(severity, declaredOnly) && ExtendsBy(a, b, severity)
  }

  /** Some findings with these ids have one key. */
  ghost predicate CanCollide(a: string, b: string, declaredOnly: bool) {
    exists f: Finding, g: Finding ::
      && f.id == a && g.id == b && Key(f) == Key(g)
      && Allowed(f.severity, declaredOnly) && Allowed(g.severity, declaredOnly)
  }

  /** A text that starts with `start` and, later or sooner, with `b` and a bar: the two agree as far as both go. */
  lemma PrefixesOfOne(key: string, start: string, rest: string, b: string, more: string)
    requires key == start + rest && key == b + ("|" + more)
    ensures |start| <= |b| ==> start <= b
    ensures |b| < |start| ==> start[|b|] == '|'
    ensures |start| < |b| && rest != "" ==> b[|start|] == rest[0]
  {
    assert key[|b|] == '|';
    assert |start| <= |b| ==> start == b[..|start|] == key[..|start|];
  }

  lemma NoBarInside(a: string, s: string)
    requires '|' !in s
    ensures var start := a + "|" + s; forall n | |a| < n < |start| :: start[n] != '|'
  {
    var start := a + "|" + s;
    forall n | |a| < n < |start|
      ensures start[n] != '|'
    {
      assert start[n] == s[n - |a| - 1];
    }
  }

  lemma OneMoreCharacter(start: string, b: string)
    requires start <= b && |start| < |b|
    ensures start + [b[|start|]] <= b
  {
  }

  lemma KeyInTwo(f: Finding)
    ensures Key(f) == f.id + "|" + SeverityString(f.severity) + ("|" + f.dedupKey)
    ensures Key(f) == f.id + ("|" + (SeverityString(f.severity) + "|" + f.dedupKey))
  {
  }

  /** Two texts that start alike: the longer one goes on where the shorter one ends. */
  lemma LongerIdExtends(f: Finding, g: Finding)
    requires Key(f) == Key(g) && |f.id| < |g.id|
    ensures ExtendsBy(f.id, g.id, f.severity)
  {
    var s, b := SeverityString(f.severity), g.id;
    var start := f.id + "|" + s;
    KeyInTwo(f);
    KeyInTwo(g);
    PrefixesOfOne(Key(f), start, "|" + f.dedupKey, b, SeverityString(g.severity) + "|" + g.dedupKey);
    SeverityHasNoBar(f.severity);
    NoBarInside(f.id, s);
    assert |start| <= |b|;
    if |start| < |b| {
      OneMoreCharacter(start, b);
    }
  }

  lemma ExtensionCollides(a: string, b: string, severity: int, declaredOnly: bool)
    requires Allowed(severity, declaredOnly) && ExtendsBy(a, b, severity)
    ensures CanCollide(a, b, declaredOnly)
  {
    var start := a + "|" + SeverityString(severity);
    var rest := if b == start then "" else b[|start| + 1..] + "|";
    var f := Finding(a, severity, rest + "info|", "", 0, false);
    var g := Finding(b, INFO, "", "", 0, false);
    if b == start {
      assert Key(f) == start + "|" + "info|" == Key(g);
    } else {
      assert b == start + "|" + b[|start| + 1..];
      assert Key(f) == start + "|" + (b[|start| + 1..] + "|" + "info|") == Key(g);
    }
  }

  lemma KeyStartsWithId(f: Finding)
    ensures |f.id| <= |Key(f)| && Key(f)[..|f.id|] == f.id
  {
  }

  lemma CollisionIsSymmetric(a: string, b: string, declaredOnly: bool)
    ensures CanCollide(a, b, declaredOnly) <==> CanCollide(b, a, declaredOnly)
  {
  }

  /**
   * Findings of two different ids can share a key exactly when one id is the other followed by a bar and the name
   * of a severity, and by nothing more or by another bar. With undeclared severities "unknown" is one more name.
   */
  lemma CollidingIdsExactly(a: string, b: string, declaredOnly: bool)
    requires a != b
    ensures CanCollide(a, b, declaredOnly) <==> Extends(a, b, declaredOnly) || Extends(b, a, declaredOnly)
  {
    if CanCollide(a, b, declaredOnly) {
      var f: Finding, g: Finding :|
        && f.id == a && g.id == b && Key(f) == Key(g)
        && Allowed(f.severity, declaredOnly) && Allowed(g.severity, declaredOnly);
      KeyStartsWithId(f);
      KeyStartsWithId(g);
      if |a| < |b| {
        LongerIdExtends(f, g);
      } else if |b| < |a| {
        LongerIdExtends(g, f);
      }
    }
    if Extends(a, b, declaredOnly) {
      var severity :| Allowed(severity, declaredOnly) && ExtendsBy(a, b, severity);
      ExtensionCollides(a, b, severity, declaredOnly);
    }
    if Extends(b, a, declaredOnly) {
      var severity :| Allowed(severity, declaredOnly) && ExtendsBy(b, a, severity);
      ExtensionCollides(b, a, severity, declaredOnly);
      CollisionIsSymmetric(b, a, declaredOnly);
    }
  }

  // ---- Checks over budget ----

  /** The book-keeping of one check. */
  datatype Hold = Hold(trips: nat, until: Option<int>)

  function HoldOf(s: State, check: string): Hold {
    Hold(TripsOf(s.trips, check), if check in s.nextRunAt then Some(s.nextRunAt[check]) else None)
  }

  /** One run of a check: when its batch began, and how it went. */
  datatype CheckRun = CheckRun(at: int, startedAt: int, recordedAt: int, over: bool)

  function HoldAfter(runs: seq<CheckRun>, minCadence: nat): (h: Hold)
    ensures h.trips < SUSPEND_BUDGET_TRIPS
  {
    if runs == [] then Hold(0, None)
    else
      var h, r := HoldAfter(runs[..|runs| - 1], minCadence), runs[|runs| - 1];
      if !r.over then h.(trips := 0)
      else if h.trips + 1 == SUSPEND_BUDGET_TRIPS then Hold(0, Some(r.recordedAt + minCadence))
      else h.(trips := h.trips + 1)
  }

  /** How many runs up to the last one overran without one in between that did not. */
  function TrailingOverruns(runs: seq<CheckRun>): nat {
    if runs == [] || !runs[|runs| - 1].over then 0 else TrailingOverruns(runs[..|runs| - 1]) + 1
  }

  /** Run `k` is the third, the sixth and so on of its overruns in a row. */
  predicate Trips(runs: seq<CheckRun>, k: nat)
    requires k < |runs|
  {
    var n := TrailingOverruns(runs[..k + 1]);
    n > 0 && n % 3 == 0
  }

  /** The counter is the number of overruns in a row, from zero again at every third. */
  lemma {:induction false} CounterIsTrailingOverruns(runs: seq<CheckRun>, minCadence: nat)
    ensures HoldAfter(runs, minCadence).trips == TrailingOverruns(runs) % 3
  {
    if runs != [] {
      CounterIsTrailingOverruns(runs[..|runs| - 1], minCadence);
    }
  }

  /** Run `k` is the last that was a third overrun in a row. */
  ghost predicate LastTrip(runs: seq<CheckRun>, k: int) {
    0 <= k < |runs| && Trips(runs, k) && forall m | k < m < |runs| :: !Trips(runs, m)
  }

  lemma TripsInFront(runs: seq<CheckRun>)
    requires runs != []
    ensures var front := runs[..|runs| - 1]; forall k | 0 <= k < |front| :: Trips(runs, k) <==> Trips(front, k)
  {
    var front := runs[..|runs| - 1];
    forall k | 0 <= k < |front|
      ensures Trips(runs, k) <==> Trips(front, k)
    {
      assert front[..k + 1] == runs[..k + 1];
    }
  }

  lemma HoldAfterOneMore(runs: seq<CheckRun>, minCadence: nat)
    requires runs != []
    ensures var k := |runs| - 1;
            HoldAfter(runs, minCadence).until
              == if Trips(runs, k) then Some(runs[k].recordedAt + minCadence)
                 else HoldAfter(runs[..k], minCadence).until
  {
    CounterIsTrailingOverruns(runs[..|runs| - 1], minCadence);
    assert runs[..|runs| - 1 + 1] == runs;
  }

  /** A check is held back for one cadence from the last run that was a third overrun in a row, and by no other. */
  lemma {:induction false} HeldFromLastTrip(runs: seq<CheckRun>, minCadence: nat)
    ensures var until := HoldAfter(runs, minCadence).until;
            && (until.None? ==> forall k | 0 <= k < |runs| :: !Trips(runs, k))
            && (until.Some? ==> exists k :: LastTrip(runs, k) && until.value == runs[k].recordedAt + minCadence)
  {
    if runs != [] {
      var front, last := runs[..|runs| - 1], |runs| - 1;
      HoldAfterOneMore(runs, minCadence);
      TripsInFront(runs);
      HeldFromLastTrip(front, minCadence);
      if Trips(runs, last) {
        assert LastTrip(runs, last);
      } else if k :| LastTrip(front, k)
                     && HoldAfter(front, minCadence).until == Some(front[k].recordedAt + minCadence) {
        assert LastTrip(runs, k);
      }
    }
  }

  /** The runs of one check among a batch's results. */
  function RunsIn(at: int, results: seq<Done>, check: string): seq<CheckRun> {
    if results == [] then []
    else
      var d := results[|results| - 1];
      RunsIn(at, results[..|results| - 1], check)
        + if d.check == check then [CheckRun(at, d.startedAt, d.recordedAt, d.over)] else []
  }

  function RunsOf(batches: seq<Batch>, check: string): seq<CheckRun> {
    if batches == [] then []
    else
      var last := batches[|batches| - 1];
      RunsOf(batches[..|batches| - 1], check) + RunsIn(last.at, last.results, check)
  }

  lemma RecordedOneHold(s: State, d: Done, r: CheckRun, before: seq<CheckRun>, minCadence: nat)
    requires HoldOf(s, d.check) == HoldAfter(before, minCadence)
    requires r.over == d.over && r.recordedAt == d.recordedAt
    ensures HoldOf(Recorded(s, d, minCadence), d.check) == HoldAfter(before + [r], minCadence)
  {
    assert (before + [r])[..|before|] == before;
  }

  lemma {:induction false} RecordedHold(s: State, at: int, results: seq<Done>, check: string, before: seq<CheckRun>,
                                        minCadence: nat)
    requires HoldOf(s, check) == HoldAfter(before, minCadence)
    ensures HoldOf(RecordedAll(s, results, minCadence), check)
         == HoldAfter(before + RunsIn(at, results, check), minCadence)
  {
    if results == [] {
      assert before + [] == before;
    } else {
      var front, d := results[..|results| - 1], results[|results| - 1];
      RecordedHold(s, at, front, check, before, minCadence);
      var runs := RunsIn(at, front, check);
      if d.check == check {
        var r := CheckRun(at, d.startedAt, d.recordedAt, d.over);
        RecordedOneHold(RecordedAll(s, front, minCadence), d, r, before + runs, minCadence);
        assert before + (runs + [r]) == before + runs + [r];
      } else {
        assert runs + [] == runs;
      }
    }
  }

  /** The counter and the release time of a check are those its own runs, all others aside, lead to. */
  lemma {:induction false} HoldOfRuns(batches: seq<Batch>, check: string, minCadence: nat)
    ensures HoldOf(Run(batches, minCadence), check) == HoldAfter(RunsOf(batches, check), minCadence)
  {
    if batches != [] {
      var front, last := batches[..|batches| - 1], batches[|batches| - 1];
      HoldOfRuns(front, check, minCadence);
      RecordedHold(Run(front, minCadence), last.at, last.results, check, RunsOf(front, check), minCadence);
    }
  }

  /** After any batches a check's counter is its overruns in a row, and it is held back from the last third one. */
  lemma BudgetIsTrailingOverruns(batches: seq<Batch>, check: string, minCadence: nat)
    ensures var s, runs := Run(batches, minCadence), RunsOf(batches, check);
            && TripsOf(s.trips, check) == TrailingOverruns(runs) % 3
            && (check !in s.nextRunAt ==> forall k | 0 <= k < |runs| :: !Trips(runs, k))
            && (check in s.nextRunAt ==>
                  exists k :: LastTrip(runs, k) && s.nextRunAt[check] == runs[k].recordedAt + minCadence)
  {
    HoldOfRuns(batches, check, minCadence);
    CounterIsTrailingOverruns(RunsOf(batches, check), minCadence);
    HeldFromLastTrip(RunsOf(batches, check), minCadence);
  }

  /** A check may not run exactly within one cadence of its last third overrun in a row. */
  lemma SuspendedExactly(batches: seq<Batch>, check: string, now: int, minCadence: nat)
    ensures var runs := RunsOf(batches, check);
            Suspended(Run(batches, minCadence).nextRunAt, check, now) <==>
              exists k :: LastTrip(runs, k) && now < runs[k].recordedAt + minCadence
  {
    BudgetIsTrailingOverruns(batches, check, minCadence);
  }

  /** Between batches the counter of every check is 0, 1 or 2. */
  lemma TripsBetweenBatches(batches: seq<Batch>, check: string, minCadence: nat)
    ensures TripsOf(Run(batches, minCadence).trips, check) < SUSPEND_BUDGET_TRIPS
  {
    HoldOfRuns(batches, check, minCadence);
  }

  /** Run `k` began after the one before it was recorded and no earlier than its check was released. */
  ghost predicate Released(runs: seq<CheckRun>, k: nat, minCadence: nat)
    requires k < |runs|
  {
    var h, r := HoldAfter(runs[..k], minCadence), runs[k];
    && (h.until.Some? ==> h.until.value <= r.at)
    && r.at <= r.startedAt <= r.recordedAt
    && (0 < k ==> runs[k - 1].recordedAt <= r.at)
  }

  ghost predicate History(runs: seq<CheckRun>, minCadence: nat) {
    forall k | 0 <= k < |runs| :: Released(runs, k, minCadence)
  }

  /** No result of this check among the first `n`. */
  predicate NoneOf(results: seq<Done>, check: string) {
    forall i | 0 <= i < |results| :: results[i].check != check
  }

  lemma {:induction false} NoneOfMeansNoRuns(at: int, results: seq<Done>, check: string)
    requires NoneOf(results, check)
    ensures RunsIn(at, results, check) == []
  {
    if results != [] {
      NoneOfMeansNoRuns(at, results[..|results| - 1], check);
    }
  }

  /** A batch either has no run of a check, or one, which its book-keeping allowed. */
  lemma {:induction false} RunInBatch(b: Batch, n: nat, s: State, check: string)
    requires n <= |b.results| && Possible(s, b)
    ensures var runs := RunsIn(b.at, b.results[..n], check);
            || runs == []
            || (&& |runs| == 1 && runs[0].at == b.at
                && b.at <= runs[0].startedAt <= runs[0].recordedAt <= b.publishedAt
                && !Suspended(s.nextRunAt, check, b.at))
  {
    if n > 0 {
      var front := b.results[..n - 1];
      assert b.results[..n][..n - 1] == front;
      assert b.results[n - 1] in b.results;
      if b.results[n - 1].check == check {
        assert NoneOf(front, check);
        NoneOfMeansNoRuns(b.at, front, check);
      } else {
        RunInBatch(b, n - 1, s, check);
      }
    }
  }

  lemma HistoryExtends(runs: seq<CheckRun>, r: CheckRun, minCadence: nat)
    requires History(runs, minCadence)
    requires Released(runs + [r], |runs|, minCadence)
    ensures History(runs + [r], minCadence)
  {
    var longer := runs + [r];
    forall k | 0 <= k < |longer|
      ensures Released(longer, k, minCadence)
    {
      if k < |runs| {
        assert Released(runs, k, minCadence);
        assert longer[..k] == runs[..k];
      }
    }
  }

  /** A history of the check's runs, all recorded by `time`. */
  ghost predicate HistoryBy(runs: seq<CheckRun>, time: int, minCadence: nat) {
    History(runs, minCadence) && (runs != [] ==> runs[|runs| - 1].recordedAt <= time)
  }

  lemma BatchExtendsHistory(runs: seq<CheckRun>, time: int, s: State, b: Batch, check: string, minCadence: nat)
    requires HistoryBy(runs, time, minCadence) && time <= b.at <= b.publishedAt
    requires HoldOf(s, check) == HoldAfter(runs, minCadence) && Possible(s, b)
    ensures HistoryBy(runs + RunsIn(b.at, b.results, check), b.publishedAt, minCadence)
  {
    RunInBatch(b, |b.results|, s, check);
    assert b.results[..|b.results|] == b.results;
    var added := RunsIn(b.at, b.results, check);
    if added == [] {
      assert runs + added == runs;
    } else {
      assert added == [added[0]];
      assert (runs + added)[..|runs|] == runs;
      HistoryExtends(runs, added[0], minCadence);
    }
  }

  /** Serial batches make a history for every check. */
  lemma {:induction false} SerialMakesHistory(batches: seq<Batch>, check: string, minCadence: nat)
    requires Serial(batches, minCadence)
    ensures History(RunsOf(batches, check), minCadence)
    ensures batches != [] ==> HistoryBy(RunsOf(batches, check), batches[|batches| - 1].publishedAt, minCadence)
  {
    if batches != [] {
      var front, last := batches[..|batches| - 1], batches[|batches| - 1];
      SerialMakesHistory(front, check, minCadence);
      HoldOfRuns(front, check, minCadence);
      var time := if front == [] then last.at else front[|front| - 1].publishedAt;
      BatchExtendsHistory(RunsOf(front, check), time, Run(front, minCadence), last, check, minCadence);
    }
  }

  lemma HoldStep(runs: seq<CheckRun>, k: nat, minCadence: nat)
    requires k < |runs| && runs[k].over
    ensures var h, g := HoldAfter(runs[..k], minCadence), HoldAfter(runs[..k + 1], minCadence);
            g == if h.trips == 2 then Hold(0, Some(runs[k].recordedAt + minCadence)) else h.(trips := h.trips + 1)
  {
    assert runs[..k + 1][..k] == runs[..k];
  }

  lemma {:induction false} LaterRunsStartLater(runs: seq<CheckRun>, j: nat, k: nat, minCadence: nat)
    requires History(runs, minCadence) && j <= k < |runs|
    ensures runs[j].startedAt <= runs[k].startedAt
    ensures j < k ==> runs[j].recordedAt <= runs[k].at
  {
    assert Released(runs, k, minCadence) && Released(runs, j, minCadence);
    if j < k {
      LaterRunsStartLater(runs, j, k - 1, minCadence);
      assert Released(runs, k - 1, minCadence);
    }
  }

  /** Three overruns in a row hold a check back: the fourth run starts a full cadence after the first. */
  lemma ThreeOverrunsHoldBack(runs: seq<CheckRun>, k: nat, minCadence: nat)
    requires History(runs, minCadence) && k + 3 < |runs|
    requires runs[k].over && runs[k + 1].over && runs[k + 2].over
    ensures runs[k].startedAt + minCadence <= runs[k + 3].startedAt
  {
    HoldStep(runs, k, minCadence);
    HoldStep(runs, k + 1, minCadence);
    HoldStep(runs, k + 2, minCadence);
    assert Released(runs, k, minCadence) && Released(runs, k + 1, minCadence);
    assert Released(runs, k + 2, minCadence) && Released(runs, k + 3, minCadence);
  }

  /** How many of the runs start in the half-open window of one cadence from `w`. */
  function StartsIn(runs: seq<CheckRun>, w: int, minCadence: nat): nat {
    if runs == [] then 0
    else
      StartsIn(runs[..|runs| - 1], w, minCadence)
        + if w <= runs[|runs| - 1].startedAt < w + minCadence then 1 else 0
  }

  ghost predicate AllBefore(runs: seq<CheckRun>, w: int) {
    forall k | 0 <= k < |runs| :: runs[k].startedAt < w
  }

  lemma {:induction false} NoStartsBefore(runs: seq<CheckRun>, w: int, minCadence: nat)
    requires AllBefore(runs, w)
    ensures StartsIn(runs, w, minCadence) == 0
  {
    if runs != [] {
      NoStartsBefore(runs[..|runs| - 1], w, minCadence);
    }
  }

  lemma OneMoreStart(runs: seq<CheckRun>, n: nat, w: int, minCadence: nat)
    requires n < |runs|
    ensures StartsIn(runs[..n + 1], w, minCadence) <= StartsIn(runs[..n], w, minCadence) + 1
  {
    assert runs[..n + 1][..n] == runs[..n];
  }

  lemma StartsInLastThree(runs: seq<CheckRun>, n: nat, w: int, minCadence: nat)
    requires |runs| == n + 3 && AllBefore(runs[..n], w)
    ensures StartsIn(runs, w, minCadence) <= 3
  {
    NoStartsBefore(runs[..n], w, minCadence);
    OneMoreStart(runs, n, w, minCadence);
    OneMoreStart(runs, n + 1, w, minCadence);
    OneMoreStart(runs, n + 2, w, minCadence);
    assert runs[..n + 3] == runs;
  }

  lemma EarlierRunsStartBefore(runs: seq<CheckRun>, n: nat, w: int, minCadence: nat)
    requires History(runs, minCadence) && n < |runs| && runs[n].startedAt < w
    ensures AllBefore(runs[..n + 1], w)
  {
    var front := runs[..n + 1];
    forall k | 0 <= k < |front|
      ensures front[k].startedAt < w
    {
      LaterRunsStartLater(runs, k, n, minCadence);
    }
  }

  ghost predicate AlwaysOver(runs: seq<CheckRun>) {
    forall k | 0 <= k < |runs| :: runs[k].over
  }

  lemma HistoryFront(runs: seq<CheckRun>, minCadence: nat)
    requires runs != [] && History(runs, minCadence)
    ensures History(runs[..|runs| - 1], minCadence)
  {
    var front := runs[..|runs| - 1];
    forall k | 0 <= k < |front|
      ensures Released(front, k, minCadence)
    {
      assert Released(runs, k, minCadence);
      assert front[..k] == runs[..k];
    }
  }

  lemma {:induction false} ThreeStartsPerCadence(runs: seq<CheckRun>, w: int, minCadence: nat)
    requires History(runs, minCadence) && AlwaysOver(runs)
    ensures StartsIn(runs, w, minCadence) <= 3
  {
    var n := |runs|;
    if n > 0 {
      if n > 3 && w <= runs[n - 1].startedAt < w + minCadence {
        ThreeOverrunsHoldBack(runs, n - 4, minCadence);
        EarlierRunsStartBefore(runs, n - 4, w, minCadence);
        StartsInLastThree(runs, n - 3, w, minCadence);
      } else {
        HistoryFront(runs, minCadence);
        ThreeStartsPerCadence(runs[..n - 1], w, minCadence);
        FewRunsFewStarts(runs, w, minCadence);
      }
    }
  }

  lemma {:induction false} FewRunsFewStarts(runs: seq<CheckRun>, w: int, minCadence: nat)
    ensures StartsIn(runs, w, minCadence) <= |runs|
  {
    if runs != [] {
      FewRunsFewStarts(runs[..|runs| - 1], w, minCadence);
    }
  }

  /** However the batches are triggered, a check that always overruns is started at most three times per cadence. */
  lemma AtMostThreeStartsPerCadence(batches: seq<Batch>, check: string, w: int, minCadence: nat)
    requires Serial(batches, minCadence) && AlwaysOver(RunsOf(batches, check))
    ensures StartsIn(RunsOf(batches, check), w, minCadence) <= 3
  {
    SerialMakesHistory(batches, check, minCadence);
    ThreeStartsPerCadence(RunsOf(batches, check), w, minCadence);
  }

  // ---- Stale findings ----

  /** What the last batch publishes of one of its results, before sorting. */
  ghost function PublishedOf(batches: seq<Batch>, minCadence: nat, d: Done): seq<Finding>
    requires batches != []
  {
    var front, last := batches[..|batches| - 1], batches[|batches| - 1];
    Stamped(Contribution(d), Run(front, minCadence).firstSeen, last.publishedAt)
  }

  lemma {:induction false} CollectedFrom(results: seq<Done>, f: Finding)
    ensures f in Collected(results) <==> exists d :: d in results && f in Contribution(d)
  {
    if results != [] {
      var front, last := results[..|results| - 1], results[|results| - 1];
      CollectedFrom(front, f);
      assert results == front + [last];
    }
  }

  lemma StampedFrom(collected: seq<Finding>, firstSeen: map<string, int>, now: int, g: Finding)
    ensures g in Stamped(collected, firstSeen, now) <==>
      exists f :: f in collected && g == f.(detected := Since(firstSeen, Key(f), now))
  {
    var stamped := Stamped(collected, firstSeen, now);
    if g in stamped {
      var i :| 0 <= i < |stamped| && stamped[i] == g;
      assert collected[i] in collected;
    }
    if f :| f in collected && g == f.(detected := Since(firstSeen, Key(f), now)) {
      var i :| 0 <= i < |collected| && collected[i] == f;
      assert stamped[i] == g;
    }
  }

  /** A batch publishes what its results contribute and nothing else. */
  lemma PublishedFromResults(batches: seq<Batch>, minCadence: nat, g: Finding)
    requires batches != []
    ensures g in Run(batches, minCadence).published <==>
      exists d :: d in batches[|batches| - 1].results && g in PublishedOf(batches, minCadence, d)
  {
    var front, last := batches[..|batches| - 1], batches[|batches| - 1];
    var s := Run(front, minCadence);
    var collected := Collected(last.results);
    RecordingKeepsFirstSeen(s, last.results, minCadence);
    var stamped := Stamped(collected, s.firstSeen, last.publishedAt);
    assert g in multiset(Sort(stamped, Before)) <==> g in multiset(stamped);
    StampedFrom(collected, s.firstSeen, last.publishedAt, g);
    forall f
      ensures f in collected <==> exists d :: d in last.results && f in Contribution(d)
    {
      CollectedFrom(last.results, f);
    }
    forall d
      ensures g in PublishedOf(batches, minCadence, d) <==>
        exists f :: f in Contribution(d) && g == f.(detected := Since(s.firstSeen, Key(f), last.publishedAt))
    {
      StampedFrom(Contribution(d), s.firstSeen, last.publishedAt, g);
    }
  }

  ghost predicate AllStale(findings: seq<Finding>) {
    forall f | f in findings :: f.stale
  }

  ghost predicate Unmarked(findings: seq<Finding>) {
    forall f | f in findings :: !f.stale
  }

  /** The latest of the runs overran. */
  predicate LastOver(runs: seq<CheckRun>) {
    runs != [] && runs[|runs| - 1].over
  }

  /** The latest run and the one before it overran. */
  predicate OverTwice(runs: seq<CheckRun>) {
    LastOver(runs) && LastOver(runs[..|runs| - 1])
  }

  lemma {:induction false} OneRunOf(at: int, results: seq<Done>, d: Done)
    requires DistinctChecks(results) && d in results
    ensures RunsIn(at, results, d.check) == [CheckRun(at, d.startedAt, d.recordedAt, d.over)]
  {
    var front, last := results[..|results| - 1], results[|results| - 1];
    if d == last {
      NoneOfMeansNoRuns(at, front, d.check);
    } else {
      assert d in front;
      OneRunOf(at, front, d);
    }
  }

  /** The last batch adds the one run of each of its checks to those of the batches before. */
  lemma RunsWithLast(batches: seq<Batch>, minCadence: nat, d: Done)
    requires batches != [] && Serial(batches, minCadence) && d in batches[|batches| - 1].results
    ensures OverTwice(RunsOf(batches, d.check)) <==> d.over && LastOver(RunsOf(batches[..|batches| - 1], d.check))
    ensures LastOver(RunsOf(batches, d.check)) <==> d.over
  {
    var front, last := batches[..|batches| - 1], batches[|batches| - 1];
    OneRunOf(last.at, last.results, d);
    var before := RunsOf(front, d.check);
    var run := CheckRun(last.at, d.startedAt, d.recordedAt, d.over);
    assert (before + [run])[..|before|] == before;
  }

  lemma ContributionStale(d: Done)
    requires Unmarked(d.findings)
    ensures forall f | f in Contribution(d) :: f.stale <==> d.over && d.err.None?
  {
  }

  /** Every published finding of a check is marked exactly when its latest run overran without an error. */
  lemma StaleAfterOneOverrun(batches: seq<Batch>, minCadence: nat, d: Done)
    requires batches != [] && Serial(batches, minCadence) && d in batches[|batches| - 1].results && Unmarked(d.findings)
    ensures forall f | f in PublishedOf(batches, minCadence, d) ::
      f.stale <==> LastOver(RunsOf(batches, d.check)) && d.err.None?
  {
    var front, last := batches[..|batches| - 1], batches[|batches| - 1];
    ContributionStale(d);
    RunsWithLast(batches, minCadence, d);
    forall f | f in PublishedOf(batches, minCadence, d)
      ensures f.stale <==> d.over && d.err.None?
    {
      StampedFrom(Contribution(d), Run(front, minCadence).firstSeen, last.publishedAt, f);
    }
  }

  /**
   * The findings of a check are called stale after two overruns in a row. Where there are any, that is met exactly
   * when the latest run kept its budget, overran without an error after another overrun, or overran with an error
   * and not after another overrun.
   */
  lemma StaleAfterTwoExactly(batches: seq<Batch>, minCadence: nat, d: Done)
    requires batches != [] && Serial(batches, minCadence) && d in batches[|batches| - 1].results
    requires Unmarked(d.findings) && Contribution(d) != []
    ensures (AllStale(PublishedOf(batches, minCadence, d)) <==> OverTwice(RunsOf(batches, d.check))) <==>
      (d.over ==> (LastOver(RunsOf(batches[..|batches| - 1], d.check)) <==> d.err.None?))
  {
    StaleAfterOneOverrun(batches, minCadence, d);
    RunsWithLast(batches, minCadence, d);
    var published := PublishedOf(batches, minCadence, d);
    assert published[0] in published;
  }
}
