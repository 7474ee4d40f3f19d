/**
 * Bundled files against the user's copies, launch after launch. Files are a map from path to content; SHA-256 is
 * an injective function to non-empty text.
 */
module AssetReconcile {
  import opened Sorting
  import opened Strings
  import opened Wrappers

  type Bytes = string
  type Files = map<string, Bytes>
  type Hashes = map<string, string>

  datatype Verdict = NoOp | Wrote | UserOwned | MergeNeeded

  /** A failed file keeps the zero verdict. */
  datatype FileResult = FileResult(path: string, verdict: Verdict, failed: bool)

  /** Paths that cannot be read, and the step at which writing a path fails. */
  datatype Faults = Faults(unreadable: set<string>, failAt: map<string, nat>)

  const RENAME_DONE := 6

  predicate CanWrite(faults: Faults, path: string) {
    path in faults.failAt ==> RENAME_DONE <= faults.failAt[path]
  }

  function Lookup(files: Files, path: string): Option<Bytes> {
    if path in files then Some(files[path]) else None
  }

  /** A Go map yields the empty string for a key it lacks. */
  function HashOf(hashes: Hashes, path: string): string {
    if path in hashes then hashes[path] else ""
  }

  ghost predicate GoodHash(hash: Bytes -> string) {
    && (forall a, b :: hash(a) == hash(b) ==> a == b)
    && (forall a :: hash(a) != "")
  }

  // ---- Writing one file ----

  /** The disk after `step` steps of a write: temp file, content, sync, close, chmod, rename. */
  function DiskAt(files: Files, path: string, tmp: string, data: Bytes, step: nat): Files {
    if step == 0 then files
    else if step == 1 then files[tmp := ""]
    else if step < RENAME_DONE then files[tmp := data]
    else files[path := data]
  }

  /** Every state the disk goes through in a write that fails at the given step, if it fails at all. */
  function Trail(files: Files, path: string, tmp: string, data: Bytes, failAt: nat): seq<Files> {
    if failAt == 0 then []
    else if failAt == 1 then [DiskAt(files, path, tmp, data, 1), files]
    else if failAt < RENAME_DONE then [DiskAt(files, path, tmp, data, 1), DiskAt(files, path, tmp, data, 2), files]
    else [DiskAt(files, path, tmp, data, 1), DiskAt(files, path, tmp, data, 2),
          DiskAt(files, path, tmp, data, RENAME_DONE)]
  }

  /** A crash before the rename leaves every file but the temp file as it was; one after it, the new content. */
  lemma CrashLeavesOldOrNew(files: Files, path: string, tmp: string, data: Bytes, step: nat)
    requires tmp !in files && tmp != path
    ensures DiskAt(files, path, tmp, data, step) - {tmp} == if step < RENAME_DONE then files else files[path := data]
  {
  }

  /** So does a crash anywhere in a write; the new content is there only at the end of one that succeeds. */
  lemma TrailIsSafe(files: Files, path: string, tmp: string, data: Bytes, failAt: nat, i: nat)
    requires tmp !in files && tmp != path && i < |Trail(files, path, tmp, data, failAt)|
    ensures var trail := Trail(files, path, tmp, data, failAt);
            && trail[i] - {tmp} == (if RENAME_DONE <= failAt && i == |trail| - 1 then files[path := data] else files)
            && (i == |trail| - 1 ==> tmp !in trail[i])
  {
  }

  class Disk {
    var files: Files

    /** Every state the files have been in since the start, one for each change. */
    ghost var history: seq<Files>

    constructor (files: Files)
      ensures this.files == files && history == []
    {
      this.files := files;
      history := [];
    }

    method Store(name: string, content: Bytes)
      modifies this
      ensures files == old(files)[name := content] && history == old(history) + [files]
    {
      files := files[name := content];
      history := history + [files];
    }

    method Remove(name: string)
      modifies this
      ensures files == old(files) - {name} && history == old(history) + [files]
    {
      files := files - {name};
      history := history + [files];
    }

    method Rename(from: string, to: string)
      requires from in files
      modifies this
      ensures files == (old(files) - {from})[to := old(files)[from]] && history == old(history) + [files]
    {
      files := (files - {from})[to := files[from]];
      history := history + [files];
    }

    /** Temp file, write, sync, close, chmod, rename; `failAt` is the step that fails. */
    method WriteAtomicNoCheck(path: string, tmp: string, data: Bytes, failAt: nat) returns (ok: bool)
      requires tmp !in files && tmp != path
      modifies this
      ensures ok == (RENAME_DONE <= failAt)
      ensures files == if ok then old(files)[path := data] else old(files)
      ensures history == old(history) + Trail(old(files), path, tmp, data, failAt)
    {
      if failAt == 0 {
        return false;
      }
      Store(tmp, "");
      if failAt == 1 {
        Remove(tmp);
        assert files == old(files);
        return false;
      }
      Store(tmp, data);
      var step := 2;
      while step < RENAME_DONE
        invariant 2 <= step <= RENAME_DONE && step <= failAt
        invariant files == old(files)[tmp := data]
        invariant history == old(history) + [old(files)[tmp := ""], old(files)[tmp := data]]
      {
        if failAt == step {
          Remove(tmp);
          assert files == old(files);
          return false;
        }
        step := step + 1;
      }
      Rename(tmp, path);
      assert files == old(files)[path := data];
      return true;
    }

    method WriteAtomic(path: string, tmp: string, data: Bytes, failAt: nat) returns (ok: bool)
      requires tmp !in files && tmp != path
      modifies this
      ensures ok == (RENAME_DONE <= failAt || Lookup(old(files), path) == Some(data))
      ensures files == if ok then old(files)[path := data] else old(files)
      ensures history == old(history) + if Lookup(old(files), path) == Some(data) then []
                                        else Trail(old(files), path, tmp, data, failAt)
    {
      if path in files && files[path] == data {
        assert files == files[path := data];
        return true;
      }
      ok := WriteAtomicNoCheck(path, tmp, data, failAt);
    }
  }

  // ---- One launch ----

  function Classify(bundled: Bytes, onDisk: Option<Bytes>, prevHash: string, hash: Bytes -> string): Verdict {
    match onDisk
    case None => Wrote
    case Some(b) =>
      if hash(b) == hash(bundled) then NoOp
      else if hash(b) == prevHash then Wrote
      else MergeNeeded
  }

  /** What one launch brings along. */
  datatype Job = Job(bundle: Files, prev: Hashes, faults: Faults, hash: Bytes -> string)

  function ResultFor(path: string, onDisk: Option<Bytes>, job: Job): FileResult
    requires path in job.bundle
  {
    var verdict := Classify(job.bundle[path], onDisk, HashOf(job.prev, path), job.hash);
    if path in job.faults.unreadable || (verdict == Wrote && !CanWrite(job.faults, path))
    then FileResult(path, NoOp, true)
    else FileResult(path, verdict, false)
  }

  function ContentAfter(path: string, onDisk: Option<Bytes>, job: Job): Option<Bytes>
    requires path in job.bundle
  {
    if ResultFor(path, onDisk, job).verdict == Wrote then Some(job.bundle[path]) else onDisk
  }

  function Visited(files: Files, p: string, job: Job): Files
    requires p in job.bundle
  {
    if ResultFor(p, Lookup(files, p), job).verdict == Wrote then files[p := job.bundle[p]] else files
  }

  predicate Within(walk: seq<string>, job: Job) {
    forall i | 0 <= i < |walk| :: walk[i] in job.bundle
  }

  /** The walk of the embedded tree visits every bundled path once. */
  ghost predicate Visits(walk: seq<string>, bundle: Files) {
    Distinct(walk) && forall p :: p in walk <==> p in bundle
  }

  /** The files after visiting the given paths in turn. */
  function Walk(files: Files, walk: seq<string>, job: Job): Files
    requires Within(walk, job)
  {
    if walk == [] then files
    else Visited(Walk(files, walk[..|walk| - 1], job), walk[|walk| - 1], job)
  }

  /** One result per path, each told from the files as they were at the start. */
  function Results(files: Files, walk: seq<string>, job: Job): seq<FileResult>
    requires Within(walk, job)
  {
    if walk == [] then []
    else
      var p := walk[|walk| - 1];
      Results(files, walk[..|walk| - 1], job) + [ResultFor(p, Lookup(files, p), job)]
  }

  /** The hashes recorded along a walk. */
  function Recorded(walk: seq<string>, job: Job): Hashes
    requires Within(walk, job)
  {
    if walk == [] then map[]
    else
      var p := walk[|walk| - 1];
      Recorded(walk[..|walk| - 1], job)[p := job.hash(job.bundle[p])]
  }

  function HashAll(bundle: Files, hash: Bytes -> string): Hashes {
    map p | p in bundle :: hash(bundle[p])
  }

  lemma {:induction false} RecordedAll(walk: seq<string>, job: Job)
    requires Within(walk, job)
    ensures Recorded(walk, job) == map p | p in walk :: job.hash(job.bundle[p])
  {
    if walk != [] {
      var front := walk[..|walk| - 1];
      assert walk == front + [walk[|walk| - 1]];
      RecordedAll(front, job);
    }
  }

  /** Visiting leaves paths outside the walk alone and treats each path in it by what was there at the start. */
  lemma {:induction false} WalkAt(files: Files, walk: seq<string>, job: Job, p: string)
    requires Distinct(walk) && Within(walk, job)
    ensures p !in walk ==> Lookup(Walk(files, walk, job), p) == Lookup(files, p)
    ensures p in walk ==> p in job.bundle && Lookup(Walk(files, walk, job), p) == ContentAfter(p, Lookup(files, p), job)
  {
    if walk != [] {
      var front, last := walk[..|walk| - 1], walk[|walk| - 1];
      assert walk == front + [last];
      WalkAt(files, front, job, p);
      assert last !in front;
    }
  }

  predicate ByPath(a: FileResult, b: FileResult) {
    !Less(b.path, a.path)
  }

  lemma ByPathIsPreorder()
    ensures Preorder(ByPath)
  {
    forall a: FileResult, b: FileResult, c: FileResult
      ensures ByPath(a, b) || ByPath(b, a)
      ensures ByPath(a, b) && ByPath(b, c) ==> ByPath(a, c)
    {
      LessIsStrictOrder(a.path, b.path, c.path);
      LessIsStrictOrder(b.path, a.path, c.path);
      LessIsStrictOrder(c.path, a.path, b.path);
      LessIsStrictOrder(c.path, b.path, a.path);
    }
  }

  method Visit(disk: Disk, key: string, tmp: string, job: Job) returns (r: FileResult)
    requires key in job.bundle && tmp !in disk.files && tmp != key
    modifies disk
    ensures r == ResultFor(key, Lookup(old(disk.files), key), job)
    ensures disk.files == Visited(old(disk.files), key, job)
  {
    var embedBytes := job.bundle[key];
    var failAt := if key in job.faults.failAt then job.faults.failAt[key] else RENAME_DONE;
    if key in job.faults.unreadable {
      return FileResult(key, NoOp, true);
    }
    if key !in disk.files {
      var ok := disk.WriteAtomic(key, tmp, embedBytes, failAt);
      return if ok then FileResult(key, Wrote, false) else FileResult(key, NoOp, true);
    } else if job.hash(disk.files[key]) == job.hash(embedBytes) {
      return FileResult(key, NoOp, false);
    } else if job.hash(disk.files[key]) == HashOf(job.prev, key) {
      var ok := disk.WriteAtomic(key, tmp, embedBytes, failAt);
      return if ok then FileResult(key, Wrote, false) else FileResult(key, NoOp, true);
    } else {
      return FileResult(key, MergeNeeded, false);
    }
  }

  /** Everything the walk has brought about so far. */
  ghost predicate Progress(start: Files, done: seq<string>, job: Job, now: Files, report: seq<FileResult>,
                           next: Hashes)
  {
    && Within(done, job)
    && now == Walk(start, done, job)
    && report == Results(start, done, job)
    && next == Recorded(done, job)
  }

  lemma OneMoreVisit(start: Files, done: seq<string>, key: string, job: Job, now: Files, report: seq<FileResult>,
                     next: Hashes)
    requires Progress(start, done, job, now, report, next)
    requires Distinct(done) && key !in done && key in job.bundle
    ensures Lookup(now, key) == Lookup(start, key)
    ensures Progress(start, done + [key], job, Visited(now, key, job),
                     report + [ResultFor(key, Lookup(start, key), job)], next[key := job.hash(job.bundle[key])])
  {
    var walk := done + [key];
    assert walk[..|walk| - 1] == done && walk[|walk| - 1] == key;
    WalkAt(start, done, job, key);
  }

  lemma NextInWalk(walk: seq<string>, i: nat)
    requires Distinct(walk) && i < |walk|
    ensures Distinct(walk[..i]) && walk[i] !in walk[..i]
    ensures walk[..i + 1] == walk[..i] + [walk[i]]
  {
  }

  lemma WalkRecordsAll(walk: seq<string>, job: Job)
    requires Visits(walk, job.bundle) && Within(walk, job)
    ensures Recorded(walk, job) == HashAll(job.bundle, job.hash)
  {
    RecordedAll(walk, job);
  }

  method SortReport(report: seq<FileResult>) returns (sorted: seq<FileResult>)
    ensures Sorted(sorted, ByPath) && multiset(sorted) == multiset(report)
  {
    ByPathIsPreorder();
    SortSorts(report, ByPath);
    return Sort(report, ByPath);
  }

  method Reconcile(disk: Disk, walk: seq<string>, tmp: string, job: Job)
    returns (report: seq<FileResult>, next: Hashes)
    requires Visits(walk, job.bundle) && Within(walk, job)
    requires tmp !in disk.files && tmp !in job.bundle
    modifies disk
    ensures disk.files == Walk(old(disk.files), walk, job)
    ensures multiset(report) == multiset(Results(old(disk.files), walk, job))
    ensures Sorted(report, ByPath)
    ensures next == HashAll(job.bundle, job.hash)
  {
    next := map[];
    report := [];
    for i := 0 to |walk|
      invariant Progress(old(disk.files), walk[..i], job, disk.files, report, next)
      invariant tmp !in disk.files
    {
      NextInWalk(walk, i);
      OneMoreVisit(old(disk.files), walk[..i], walk[i], job, disk.files, report, next);
      next := next[walk[i] := job.hash(job.bundle[walk[i]])];
      var r := Visit(disk, walk[i], tmp, job);
      report := report + [r];
    }
    assert walk[..|walk|] == walk;
    WalkRecordsAll(walk, job);
    report := SortReport(report);
  }

  // ---- Every run of launches ----

  /** `shipped` remembers the bundle whose hashes are on record; it is not stored anywhere. */
  datatype World = World(files: Files, hashes: Hashes, shipped: Files)

  datatype Event =
    | Edit(path: string, content: Option<Bytes>)
    | LoseState
    | Launch(bundle: Files, walk: seq<string>, faults: Faults, saved: bool)

  ghost predicate WellFormed(e: Event) {
    e.Launch? ==> Visits(e.walk, e.bundle)
  }

  ghost function Step(w: World, e: Event, hash: Bytes -> string): World
    requires WellFormed(e)
  {
    match e
    case Edit(path, content) =>
      w.(files := if content.Some? then w.files[path := content.value] else w.files - {path})
    case LoseState => w.(hashes := map[], shipped := map[])
    case Launch(bundle, walk, faults, saved) =>
      var files := Walk(w.files, walk, Job(bundle, w.hashes, faults, hash));
      if saved then World(files, HashAll(bundle, hash), bundle) else w.(files := files)
  }

  ghost function Run(w: World, events: seq<Event>, hash: Bytes -> string): World
    requires forall e | e in events :: WellFormed(e)
    decreases |events|
  {
    if events == [] then w else Run(Step(w, events[0], hash), events[1..], hash)
  }

  /** The recorded hashes are those of the remembered bundle. */
  ghost predicate Consistent(w: World, hash: Bytes -> string) {
    w.hashes == HashAll(w.shipped, hash)
  }

  lemma StepIsConsistent(w: World, e: Event, hash: Bytes -> string)
    requires Consistent(w, hash) && WellFormed(e)
    ensures Consistent(Step(w, e, hash), hash)
  {
  }

  /** The user's file: not what this launch bundles and not what the recorded launch bundled. */
  predicate Foreign(w: World, path: string, bundled: Bytes) {
    && path in w.files && w.files[path] != bundled
    && (path in w.shipped ==> w.files[path] != w.shipped[path])
  }

  ghost function VerdictAt(w: World, launch: Event, path: string, hash: Bytes -> string): FileResult
    requires launch.Launch? && path in launch.bundle
  {
    ResultFor(path, Lookup(w.files, path), Job(launch.bundle, w.hashes, launch.faults, hash))
  }

  predicate FaultFree(launch: Event, path: string)
    requires launch.Launch?
  {
    path !in launch.faults.unreadable && CanWrite(launch.faults, path)
  }

  /**
   * One launch in terms of contents alone. A bundled file is reported merge-needed exactly when it differs from
   * both the bundle and the recorded one, and is then left as it is; every other bundled file ends equal to the
   * bundle, and nothing outside the bundle changes.
   */
  lemma LaunchOutcome(w: World, launch: Event, path: string, hash: Bytes -> string)
    requires Consistent(w, hash) && GoodHash(hash) && launch.Launch? && WellFormed(launch)
    ensures var before, after := Lookup(w.files, path), Lookup(Step(w, launch, hash).files, path);
            && (path !in launch.bundle ==> after == before)
            && (path in launch.bundle && FaultFree(launch, path) ==>
                 var r, foreign := VerdictAt(w, launch, path, hash), Foreign(w, path, launch.bundle[path]);
                 && !r.failed && (r.verdict == MergeNeeded <==> foreign)
                 && (r.verdict == NoOp <==> before == Some(launch.bundle[path]))
                 && after == if foreign then before else Some(launch.bundle[path]))
            && (path in launch.bundle && !FaultFree(launch, path) ==>
                 after == before || after == Some(launch.bundle[path]))
  {
    WalkAt(w.files, launch.walk, Job(launch.bundle, w.hashes, launch.faults, hash), path);
  }

  /** A launch fails at a file exactly if it cannot read it or cannot make a change that it should. */
  lemma FailsExactly(w: World, launch: Event, path: string, hash: Bytes -> string)
    requires Consistent(w, hash) && GoodHash(hash) && launch.Launch? && WellFormed(launch) && path in launch.bundle
    ensures var before, r := Lookup(w.files, path), VerdictAt(w, launch, path, hash);
            && r.path == path
            && (r.failed <==>
                 path in launch.faults.unreadable
                 || (before != Some(launch.bundle[path]) && !Foreign(w, path, launch.bundle[path])
                     && !CanWrite(launch.faults, path)))
            && (r.failed ==> r.verdict == NoOp && Lookup(Step(w, launch, hash).files, path) == before)
  {
    WalkAt(w.files, launch.walk, Job(launch.bundle, w.hashes, launch.faults, hash), path);
  }

  /** What no launch in the run ships at this path. */
  ghost predicate NeverShipped(events: seq<Event>, path: string, content: Bytes) {
    forall e | e in events ::
      && (e.Launch? && path in e.bundle ==> e.bundle[path] != content)
      && (e.Edit? ==> e.path != path)
  }

  lemma ForeignFileStays(w: World, e: Event, path: string, hash: Bytes -> string)
    requires Consistent(w, hash) && GoodHash(hash) && WellFormed(e)
    requires path in w.files && (path in w.shipped ==> w.shipped[path] != w.files[path])
    requires NeverShipped([e], path, w.files[path])
    ensures var v := Step(w, e, hash);
            && Lookup(v.files, path) == Some(w.files[path])
            && (path in v.shipped ==> v.shipped[path] != w.files[path])
  {
    assert e in [e];
    if e.Launch? {
      WalkAt(w.files, e.walk, Job(e.bundle, w.hashes, e.faults, hash), path);
    }
  }

  /**
   * A file with content no launch ships, then or before, survives every run: launches of any bundles, with or
   * without faults, with the records kept or lost in between.
   */
  lemma {:induction false} UserFileSurvives(w: World, events: seq<Event>, path: string, hash: Bytes -> string)
    requires Consistent(w, hash) && GoodHash(hash) && forall e | e in events :: WellFormed(e)
    requires path in w.files && (path in w.shipped ==> w.shipped[path] != w.files[path])
    requires NeverShipped(events, path, w.files[path])
    ensures var v := Run(w, events, hash);
            && Consistent(v, hash) && Lookup(v.files, path) == Some(w.files[path])
            && (path in v.shipped ==> v.shipped[path] != w.files[path])
    decreases |events|
  {
    if events != [] {
      var e := events[0];
      assert e in events;
      assert NeverShipped([e], path, w.files[path]);
      StepIsConsistent(w, e, hash);
      ForeignFileStays(w, e, path, hash);
      assert NeverShipped(events[1..], path, w.files[path]);
      UserFileSurvives(Step(w, e, hash), events[1..], path, hash);
    }
  }

  /**
   * After any launch, saved or not, with or without records, a bundled file equals the bundle exactly when it did
   * before, or nothing fails at it and it was missing or equal to what the records were taken of.
   */
  lemma FollowsExactly(w: World, launch: Event, path: string, hash: Bytes -> string)
    requires Consistent(w, hash) && GoodHash(hash)
    requires launch.Launch? && WellFormed(launch) && path in launch.bundle
    ensures var before, after := Lookup(w.files, path), Lookup(Step(w, launch, hash).files, path);
            after == Some(launch.bundle[path]) <==>
              || before == Some(launch.bundle[path])
              || (FaultFree(launch, path)
                  && (before == None || (path in w.shipped && before == Some(w.shipped[path]))))
  {
    WalkAt(w.files, launch.walk, Job(launch.bundle, w.hashes, launch.faults, hash), path);
  }

  /** The file equals the recorded bundle. */
  predicate InStep(w: World, path: string) {
    path in w.shipped && Lookup(w.files, path) == Some(w.shipped[path])
  }

  /** A saved launch keeps a file in step exactly when it brings no change or nothing fails at it. */
  lemma StaysInStepExactly(w: World, launch: Event, path: string, hash: Bytes -> string)
    requires Consistent(w, hash) && GoodHash(hash) && InStep(w, path)
    requires launch.Launch? && WellFormed(launch) && path in launch.bundle && launch.saved
    ensures InStep(Step(w, launch, hash), path) <==> launch.bundle[path] == w.shipped[path] || FaultFree(launch, path)
  {
    FollowsExactly(w, launch, path, hash);
  }

  /** Nobody edits the file, every launch bundles it, and the records are kept. */
  predicate Undisturbed(e: Event, path: string) {
    match e
    case Edit(p, _) => p != path
    case LoseState => false
    case Launch(bundle, _, _, saved) => path in bundle && saved
  }

  /** Every launch brings what the one before brought, or nothing fails at it. */
  predicate NothingMissed(content: Bytes, events: seq<Event>, path: string)
    requires forall e | e in events :: Undisturbed(e, path)
    decreases |events|
  {
    if events == [] then true
    else
      var e := events[0];
      assert e in events && Undisturbed(e, path);
      if e.Launch? then
        (e.bundle[path] == content || FaultFree(e, path)) && NothingMissed(e.bundle[path], events[1..], path)
      else NothingMissed(content, events[1..], path)
  }

  ghost predicate AlwaysInStep(w: World, events: seq<Event>, path: string, hash: Bytes -> string)
    requires forall e | e in events :: WellFormed(e)
    decreases |events|
  {
    InStep(w, path) && (events == [] || AlwaysInStep(Step(w, events[0], hash), events[1..], path, hash))
  }

  /** A file in step stays so through a whole run exactly when no launch that changes it fails at it. */
  lemma {:induction false} StaysInStepThroughout(w: World, events: seq<Event>, path: string, hash: Bytes -> string)
    requires Consistent(w, hash) && GoodHash(hash) && InStep(w, path)
    requires forall e | e in events :: WellFormed(e) && Undisturbed(e, path)
    ensures AlwaysInStep(w, events, path, hash) <==> NothingMissed(w.shipped[path], events, path)
    decreases |events|
  {
    if events != [] {
      var e := events[0];
      assert e in events;
      var v := Step(w, e, hash);
      StepIsConsistent(w, e, hash);
      if e.Launch? {
        StaysInStepExactly(w, e, path, hash);
      }
      if InStep(v, path) {
        StaysInStepThroughout(v, events[1..], path, hash);
      }
    }
  }

  /** Events that let an untouched file follow the bundle: nobody edits it, nothing fails, records are kept. */
  predicate Smooth(e: Event, path: string) {
    Undisturbed(e, path) && (e.Launch? ==> FaultFree(e, path))
  }

  /** A file equal to the last launch's bundle equals the latest bundle after any smooth run. */
  lemma {:induction false} UntouchedFileFollows(w: World, events: seq<Event>, path: string, hash: Bytes -> string)
    requires Consistent(w, hash) && GoodHash(hash) && InStep(w, path)
    requires forall e | e in events :: WellFormed(e) && Smooth(e, path)
    ensures InStep(Run(w, events, hash), path)
    decreases |events|
  {
    if events != [] {
      var e := events[0];
      assert e in events && Smooth(e, path);
      StepIsConsistent(w, e, hash);
      if e.Launch? {
        StaysInStepExactly(w, e, path, hash);
      }
      UntouchedFileFollows(Step(w, e, hash), events[1..], path, hash);
    }
  }

  predicate AllFaultFree(launch: Event)
    requires launch.Launch?
  {
    forall p | p in launch.bundle :: FaultFree(launch, p)
  }

  /**
   * Launching the same bundle again on untouched files writes nothing, and reports as merge-needed the same files
   * as before.
   */
  lemma RelaunchWritesNothing(w: World, launch: Event, again: Event, hash: Bytes -> string)
    requires Consistent(w, hash) && GoodHash(hash)
    requires launch.Launch? && WellFormed(launch) && AllFaultFree(launch) && launch.saved
    requires again.Launch? && WellFormed(again) && AllFaultFree(again) && again.bundle == launch.bundle
    ensures var v := Step(w, launch, hash);
            && Step(v, again, hash).files == v.files
            && forall p | p in again.bundle ::
                 && VerdictAt(v, again, p, hash).verdict in {NoOp, MergeNeeded}
                 && (VerdictAt(v, again, p, hash).verdict == MergeNeeded
                     <==> VerdictAt(w, launch, p, hash).verdict == MergeNeeded)
  {
    var v := Step(w, launch, hash);
    var u := Step(v, again, hash);
    StepIsConsistent(w, launch, hash);
    forall p
      ensures Lookup(u.files, p) == Lookup(v.files, p)
      ensures p in again.bundle ==>
                && VerdictAt(v, again, p, hash).verdict in {NoOp, MergeNeeded}
                && (VerdictAt(v, again, p, hash).verdict == MergeNeeded
                    <==> VerdictAt(w, launch, p, hash).verdict == MergeNeeded)
    {
      LaunchOutcome(w, launch, p, hash);
      LaunchOutcome(v, again, p, hash);
    }
    SameLookups(u.files, v.files);
  }

  lemma SameLookups(a: Files, b: Files)
    requires forall p :: Lookup(a, p) == Lookup(b, p)
    ensures a == b
  {
    forall p
      ensures p in a <==> p in b
      ensures p in a && p in b ==> a[p] == b[p]
    {
      assert Lookup(a, p) == Lookup(b, p);
    }
  }

  // ---- Where the code and its description part ----

  /** Without records every differing file is reported for merging; none is taken for an old default. */
  lemma LostRecordsReportEveryDifference(w: World, launch: Event, path: string, hash: Bytes -> string)
    requires Consistent(w, hash) && GoodHash(hash)
    requires launch.Launch? && WellFormed(launch) && path in launch.bundle && FaultFree(launch, path)
    requires path in w.files && w.files[path] != launch.bundle[path]
    ensures VerdictAt(Step(w, LoseState, hash), launch, path, hash).verdict == MergeNeeded
  {
    LaunchOutcome(Step(w, LoseState, hash), launch, path, hash);
  }

  /** An edited file is reported even if the bundle has not changed since the recorded launch. */
  lemma UnchangedBundleStillReported(w: World, launch: Event, path: string, hash: Bytes -> string)
    requires Consistent(w, hash) && GoodHash(hash)
    requires launch.Launch? && WellFormed(launch) && path in launch.bundle && FaultFree(launch, path)
    requires launch.bundle == w.shipped
    requires path in w.files && w.files[path] != launch.bundle[path]
    ensures VerdictAt(w, launch, path, hash).verdict == MergeNeeded
  {
    LaunchOutcome(w, launch, path, hash);
  }

  /**
   * The hash of a file is recorded before the file is written: if a launch that changes the file fails at it, the
   * untouched old default is a user's edit from then on. It is never written again in any later run, whatever
   * fails, is edited or lost there, and each later launch reports it, until a bundle brings the old content back.
   */
  lemma FailedWriteStrandsTheFile(w: World, failing: Event, more: seq<Event>, next: Event, path: string,
                                  hash: Bytes -> string)
    requires Consistent(w, hash) && GoodHash(hash) && InStep(w, path)
    requires failing.Launch? && WellFormed(failing) && path in failing.bundle && failing.saved
    requires !FaultFree(failing, path) && failing.bundle[path] != w.shipped[path]
    requires forall e | e in more :: WellFormed(e)
    requires NeverShipped(more, path, w.shipped[path])
    requires next.Launch? && WellFormed(next) && path in next.bundle && FaultFree(next, path)
    ensures var stale, v := w.shipped[path], Step(w, failing, hash);
            var u := Run(v, more, hash);
            && VerdictAt(w, failing, path, hash).failed
            && Lookup(u.files, path) == Some(stale)
            && Lookup(Step(u, next, hash).files, path) == Some(stale)
            && VerdictAt(u, next, path, hash).verdict == (if next.bundle[path] == stale then NoOp else MergeNeeded)
  {
    var v := Step(w, failing, hash);
    StepIsConsistent(w, failing, hash);
    WalkAt(w.files, failing.walk, Job(failing.bundle, w.hashes, failing.faults, hash), path);
    UserFileSurvives(v, more, path, hash);
    LaunchOutcome(Run(v, more, hash), next, path, hash);
  }
}
