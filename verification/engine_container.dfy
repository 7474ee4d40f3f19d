/**
 * EnsureContainer: keep a container whose hash label matches the spec, replace any other. The Docker daemon is a
 * table of containers by name that may refuse a request.
 */
module EngineContainers {
  import opened ConfigHashing
  import opened Wrappers

  /** `from` is the spec a container was created from here; containers made elsewhere have none. */
  datatype Container = Container(id: nat, labels: Option<map<string, string>>, from: Option<ContainerSpec>)

  datatype Daemon = Daemon(containers: map<string, Container>, nextId: nat)

  /**
   * The daemon's last word on a create, its transient failures retried. `NameTaken` is a container of the same name
   * turning up in between: it is removed by force and the create tried once more.
   */
  datatype Creation = Accepted | Refused | NameTaken(acceptedThen: bool)

  /** How the daemon's requests end during one call. */
  datatype Answers = Answers(inspect: bool, remove: bool, create: Creation)

  datatype Error = NameRequired | ImageRequired | AmbiguousMount(index: nat) | InspectFailed | RemoveFailed
                 | InvalidPort | CreateFailed

  datatype Result<+T> = Ok(value: T) | Err(error: Error)

  /** What the model leaves open: the hash, and the port syntax the Docker library accepts. */
  datatype Setup = Setup(encode: CanonicalSpec -> string, portOk: PortMap -> bool)

  function B(b: bool): nat { if b then 1 else 0 }

  predicate OneKind(m: Mount) {
    B(m.bind.Some?) + B(m.volume.Some?) + B(m.tmpfs.Some?) == 1
  }

  predicate Unambiguous(mounts: seq<Mount>) {
    forall i | 0 <= i < |mounts| :: OneKind(mounts[i])
  }

  predicate WellFormed(spec: ContainerSpec) {
    spec.name != "" && spec.image != "" && Unambiguous(spec.mounts.Items())
  }

  method ValidateSpec(spec: ContainerSpec) returns (problem: Option<Error>)
    ensures problem.None? <==> WellFormed(spec)
    ensures problem == Some(NameRequired) <==> spec.name == ""
    ensures problem == Some(ImageRequired) <==> spec.name != "" && spec.image == ""
    ensures problem.Some? && problem.value.AmbiguousMount? ==>
      var mounts, i := spec.mounts.Items(), problem.value.index;
      i < |mounts| && !OneKind(mounts[i]) && Unambiguous(mounts[..i])
  {
    if spec.name == "" {
      return Some(NameRequired);
    }
    if spec.image == "" {
      return Some(ImageRequired);
    }
    var mounts := spec.mounts.Items();
    for i := 0 to |mounts|
      invariant Unambiguous(mounts[..i])
    {
      var count := B(mounts[i].bind.Some?);
      if mounts[i].volume.Some? {
        count := count + 1;
      }
      if mounts[i].tmpfs.Some? {
        count := count + 1;
      }
      if count != 1 {
        return Some(AmbiguousMount(i));
      }
    }
    return None;
  }

  // ---- One call ----

  /** The labels a container is created with. */
  function Stamped(spec: ContainerSpec, hash: string): map<string, string> {
    spec.labels[LABEL_CONFIG_HASH := hash]
  }

  ghost function HashOf(spec: ContainerSpec, setup: Setup): string {
    setup.encode(Canonical(spec))
  }

  predicate PortsOk(spec: ContainerSpec, setup: Setup) {
    forall p | p in spec.ports.Items() :: setup.portOk(p)
  }

  method CheckPorts(spec: ContainerSpec, setup: Setup) returns (ok: bool)
    ensures ok == PortsOk(spec, setup)
  {
    var ports := spec.ports.Items();
    for i := 0 to |ports|
      invariant forall j | 0 <= j < i :: setup.portOk(ports[j])
    {
      if !setup.portOk(ports[i]) {
        return false;
      }
    }
    return true;
  }

  /** The container carries the hash of this spec. */
  ghost predicate Matches(c: Container, spec: ContainerSpec, setup: Setup) {
    && c.labels.Some?
    && LABEL_CONFIG_HASH in c.labels.value
    && c.labels.value[LABEL_CONFIG_HASH] == HashOf(spec, setup)
  }

  function Without(d: Daemon, name: string): Daemon {
    d.(containers := d.containers - {name})
  }

  function Accept(d: Daemon, spec: ContainerSpec, hash: string): (Daemon, Result<nat>) {
    var c := Container(d.nextId, Some(Stamped(spec, hash)), Some(spec));
    (Daemon(d.containers[spec.name := c], d.nextId + 1), Ok(d.nextId))
  }

  function Created(d: Daemon, spec: ContainerSpec, hash: string, answers: Answers, setup: Setup): (Daemon, Result<nat>)
  {
    if !PortsOk(spec, setup) then (d, Err(InvalidPort))
    else
      match answers.create
      case Accepted => Accept(d, spec, hash)
      case Refused => (d, Err(CreateFailed))
      case NameTaken(true) => Accept(Without(d, spec.name), spec, hash)
      case NameTaken(false) => (Without(d, spec.name), Err(CreateFailed))
  }

  ghost function Ensured(d: Daemon, spec: ContainerSpec, answers: Answers, setup: Setup): (Daemon, Result<nat>)
    requires WellFormed(spec)
  {
    if !answers.inspect then (d, Err(InspectFailed))
    else if spec.name !in d.containers then Created(d, spec, HashOf(spec, setup), answers, setup)
    else if Matches(d.containers[spec.name], spec, setup) then (d, Ok(d.containers[spec.name].id))
    else if !answers.remove then (d, Err(RemoveFailed))
    else Created(Without(d, spec.name), spec, HashOf(spec, setup), answers, setup)
  }

  class Docker {
    const setup: Setup
    var daemon: Daemon

    constructor (daemon: Daemon, setup: Setup)
      ensures this.daemon == daemon && this.setup == setup
    {
      this.daemon := daemon;
      this.setup := setup;
    }

    method RemoveContainer(name: string, answers: Answers) returns (ok: bool)
      modifies this
      ensures ok == (answers.remove || name !in old(daemon.containers))
      ensures daemon == if answers.remove then old(daemon).(containers := old(daemon).containers - {name})
                        else old(daemon)
    {
      if answers.remove {
        daemon := daemon.(containers := daemon.containers - {name});
        return true;
      }
      return name !in daemon.containers;
    }

    method CreateContainerFromSpec(spec: ContainerSpec, hash: string, answers: Answers) returns (r: Result<nat>)
      modifies this
      ensures (daemon, r) == Created(old(daemon), spec, hash, answers, setup)
    {
      var labels := spec.labels[LABEL_CONFIG_HASH := hash];
      var portsOk := CheckPorts(spec, setup);
      if !portsOk {
        return Err(InvalidPort);
      }
      if answers.create.Refused? {
        return Err(CreateFailed);
      }
      if answers.create.NameTaken? {
        daemon := daemon.(containers := daemon.containers - {spec.name});
        if !answers.create.acceptedThen {
          return Err(CreateFailed);
        }
      }
      var id := daemon.nextId;
      daemon := Daemon(daemon.containers[spec.name := Container(id, Some(labels), Some(spec))], id + 1);
      return Ok(id);
    }

    method EnsureContainer(spec: ContainerSpec, answers: Answers) returns (r: Result<nat>)
      modifies this
      ensures WellFormed(spec) ==> (daemon, r) == Ensured(old(daemon), spec, answers, setup)
      ensures !WellFormed(spec) ==> daemon == old(daemon) && r.Err?
      ensures spec.name == "" ==> r == Err(NameRequired)
      ensures spec.name != "" && spec.image == "" ==> r == Err(ImageRequired)
    {
      var problem := ValidateSpec(spec);
      if problem.Some? {
        return Err(problem.value);
      }
      var wantHash := ConfigHash(spec, setup.encode);
      if !answers.inspect {
        return Err(InspectFailed);
      }
      if spec.name !in daemon.containers {
        r := CreateContainerFromSpec(spec, wantHash, answers);
        return;
      }
      var inspected := daemon.containers[spec.name];
      if inspected.labels.Some? {
        var labels := inspected.labels.value;
        if LABEL_CONFIG_HASH in labels && labels[LABEL_CONFIG_HASH] == wantHash {
          return Ok(inspected.id);
        }
      }
      var removed := RemoveContainer(spec.name, answers);
      if !removed {
        return Err(RemoveFailed);
      }
      r := CreateContainerFromSpec(spec, wantHash, answers);
    }
  }

  // ---- Every run ----

  /** A container created here still wears the stamp of the spec it was created from. */
  ghost predicate WearsStamp(c: Container, setup: Setup) {
    c.from.Some? ==> c.labels == Some(Stamped(c.from.value, HashOf(c.from.value, setup)))
  }

  /** Stamps are as they were put on, and ids are never reused. */
  ghost predicate Consistent(d: Daemon, setup: Setup) {
    forall name | name in d.containers ::
      WearsStamp(d.containers[name], setup) && d.containers[name].id < d.nextId
  }

  datatype Call = Ensure(spec: ContainerSpec, answers: Answers) | Remove(name: string)

  ghost function Step(d: Daemon, call: Call, setup: Setup): Daemon {
    match call
    case Ensure(spec, answers) => if WellFormed(spec) then Ensured(d, spec, answers, setup).0 else d
    case Remove(name) => Without(d, name)
  }

  ghost function Run(d: Daemon, calls: seq<Call>, setup: Setup): Daemon
    decreases |calls|
  {
    if calls == [] then d else Run(Step(d, calls[0], setup), calls[1..], setup)
  }

  function Target(call: Call): string {
    match call
    case Ensure(spec, _) => spec.name
    case Remove(name) => name
  }

  /** Only the container of one name may differ. */
  predicate OthersUntouched(d: Daemon, after: Daemon, name: string) {
    && d.nextId <= after.nextId
    && d.containers - {name} == after.containers - {name}
  }

  /** The daemon after a step is sound if it is consistent and only one name may have changed. */
  ghost predicate Sound(d: Daemon, after: Daemon, name: string, setup: Setup) {
    Consistent(after, setup) && OthersUntouched(d, after, name)
  }

  lemma FreshWearsStamp(id: nat, spec: ContainerSpec, hash: string, setup: Setup)
    requires hash == HashOf(spec, setup)
    ensures WearsStamp(Container(id, Some(Stamped(spec, hash)), Some(spec)), setup)
  {
  }

  lemma PutIsConsistent(d: Daemon, name: string, c: Container, setup: Setup)
    requires Consistent(d, setup) && WearsStamp(c, setup) && c.id == d.nextId
    ensures Consistent(Daemon(d.containers[name := c], d.nextId + 1), setup)
    ensures OthersUntouched(d, Daemon(d.containers[name := c], d.nextId + 1), name)
  {
    var after := Daemon(d.containers[name := c], d.nextId + 1);
    forall n | n in after.containers
      ensures WearsStamp(after.containers[n], setup) && after.containers[n].id < after.nextId
    {
      assert n == name || after.containers[n] == d.containers[n];
    }
  }

  lemma AcceptIsSound(d: Daemon, spec: ContainerSpec, hash: string, setup: Setup)
    requires Consistent(d, setup) && hash == HashOf(spec, setup)
    ensures Sound(d, Accept(d, spec, hash).0, spec.name, setup)
  {
    var c := Container(d.nextId, Some(Stamped(spec, hash)), Some(spec));
    FreshWearsStamp(d.nextId, spec, hash, setup);
    PutIsConsistent(d, spec.name, c, setup);
  }

  lemma CreatedIsOneOf(d: Daemon, spec: ContainerSpec, hash: string, answers: Answers, setup: Setup)
    ensures var after := Created(d, spec, hash, answers, setup).0;
            || after == d || after == Without(d, spec.name)
            || after == Accept(d, spec, hash).0 || after == Accept(Without(d, spec.name), spec, hash).0
  {
  }

  lemma ReacceptedIsSound(d: Daemon, spec: ContainerSpec, hash: string, setup: Setup)
    requires Consistent(d, setup) && hash == HashOf(spec, setup)
    ensures Sound(d, Without(d, spec.name), spec.name, setup)
    ensures Sound(d, Accept(Without(d, spec.name), spec, hash).0, spec.name, setup)
  {
    var without := Without(d, spec.name);
    RemovedIsConsistent(d, spec.name, setup);
    AcceptIsSound(without, spec, hash, setup);
    ChangesCompose(d, without, Accept(without, spec, hash).0, spec.name);
  }

  lemma CreatedIsSound(d: Daemon, spec: ContainerSpec, hash: string, answers: Answers, setup: Setup)
    requires Consistent(d, setup) && hash == HashOf(spec, setup)
    ensures Sound(d, Created(d, spec, hash, answers, setup).0, spec.name, setup)
  {
    CreatedIsOneOf(d, spec, hash, answers, setup);
    AcceptIsSound(d, spec, hash, setup);
    ReacceptedIsSound(d, spec, hash, setup);
  }

  lemma RemovedIsConsistent(d: Daemon, name: string, setup: Setup)
    requires Consistent(d, setup)
    ensures Sound(d, Without(d, name), name, setup)
  {
  }

  lemma EnsuredIsOneOf(d: Daemon, spec: ContainerSpec, hash: string, answers: Answers, setup: Setup)
    requires WellFormed(spec) && hash == HashOf(spec, setup)
    ensures var after := Ensured(d, spec, answers, setup).0;
            || after == d
            || after == Created(d, spec, hash, answers, setup).0
            || after == Created(Without(d, spec.name), spec, hash, answers, setup).0
  {
  }

  lemma ReplacedIsSound(d: Daemon, spec: ContainerSpec, hash: string, answers: Answers, setup: Setup)
    requires Consistent(d, setup) && hash == HashOf(spec, setup)
    ensures Sound(d, Created(Without(d, spec.name), spec, hash, answers, setup).0, spec.name, setup)
  {
    var without := Without(d, spec.name);
    RemovedIsConsistent(d, spec.name, setup);
    CreatedIsSound(without, spec, hash, answers, setup);
    ChangesCompose(d, without, Created(without, spec, hash, answers, setup).0, spec.name);
  }

  lemma EnsuredIsConsistent(d: Daemon, spec: ContainerSpec, answers: Answers, setup: Setup)
    requires Consistent(d, setup) && WellFormed(spec)
    ensures Sound(d, Ensured(d, spec, answers, setup).0, spec.name, setup)
  {
    var hash := HashOf(spec, setup);
    EnsuredIsOneOf(d, spec, hash, answers, setup);
    CreatedIsSound(d, spec, hash, answers, setup);
    ReplacedIsSound(d, spec, hash, answers, setup);
  }

  lemma ChangesCompose(d: Daemon, e: Daemon, f: Daemon, name: string)
    requires OthersUntouched(d, e, name) && OthersUntouched(e, f, name)
    ensures OthersUntouched(d, f, name)
  {
  }

  lemma StepIsConsistent(d: Daemon, call: Call, setup: Setup)
    requires Consistent(d, setup)
    ensures Consistent(Step(d, call, setup), setup)
    ensures OthersUntouched(d, Step(d, call, setup), Target(call))
  {
    match call
    case Ensure(spec, answers) =>
      if WellFormed(spec) {
        EnsuredIsConsistent(d, spec, answers, setup);
      }
    case Remove(name) =>
      RemovedIsConsistent(d, name, setup);
  }

  lemma {:induction false} RunIsConsistent(d: Daemon, calls: seq<Call>, setup: Setup)
    requires Consistent(d, setup)
    ensures Consistent(Run(d, calls, setup), setup)
    ensures d.nextId <= Run(d, calls, setup).nextId
    decreases |calls|
  {
    if calls != [] {
      StepIsConsistent(d, calls[0], setup);
      RunIsConsistent(Step(d, calls[0], setup), calls[1..], setup);
    }
  }

  lemma {:induction false} RunLeavesOthers(d: Daemon, calls: seq<Call>, name: string, setup: Setup)
    requires Consistent(d, setup) && name in d.containers
    requires forall i | 0 <= i < |calls| :: Target(calls[i]) != name
    ensures name in Run(d, calls, setup).containers
    ensures Run(d, calls, setup).containers[name] == d.containers[name]
    decreases |calls|
  {
    if calls != [] {
      var next := Step(d, calls[0], setup);
      StepIsConsistent(d, calls[0], setup);
      assert name in d.containers - {Target(calls[0])};
      assert name in next.containers - {Target(calls[0])};
      assert next.containers[name] == (next.containers - {Target(calls[0])})[name];
      RunLeavesOthers(next, calls[1..], name, setup);
    }
  }

  lemma MatchesDecidesIntent(c: Container, spec: ContainerSpec, setup: Setup)
    requires Injective(setup.encode)
    requires c.from.Some? && c.labels == Some(Stamped(c.from.value, HashOf(c.from.value, setup)))
    ensures Matches(c, spec, setup) <==> SameIntent(c.from.value, spec)
  {
    HashDecidesIntent(c.from.value, spec, setup.encode);
  }

  const WORKING := Answers(true, true, Accepted)

  /**
   * After any run of calls, ensuring a spec keeps the container of that name if and only if the spec has the
   * intent of the one it was created from; otherwise it ends with a new container, whose id was never in use.
   */
  lemma KeptExactlyOnSameIntent(start: Daemon, calls: seq<Call>, spec: ContainerSpec, setup: Setup)
    requires Consistent(start, setup) && Injective(setup.encode)
    requires WellFormed(spec) && PortsOk(spec, setup)
    ensures var d := Run(start, calls, setup);
            var (after, r) := Ensured(d, spec, WORKING, setup);
            && r.Ok? && spec.name in after.containers && after.containers[spec.name].id == r.value
            && Matches(after.containers[spec.name], spec, setup)
            && (r.value == d.nextId ==> after.containers[spec.name].from == Some(spec))
            && (forall name | name in d.containers :: d.containers[name].id != d.nextId)
            && (spec.name in d.containers && d.containers[spec.name].from.Some? ==>
                 if SameIntent(d.containers[spec.name].from.value, spec)
                 then after == d && r.value == d.containers[spec.name].id
                 else r.value == d.nextId)
  {
    RunIsConsistent(start, calls, setup);
    var d := Run(start, calls, setup);
    if spec.name in d.containers && d.containers[spec.name].from.Some? {
      MatchesDecidesIntent(d.containers[spec.name], spec, setup);
    }
  }

  /**
   * Two ensures of one name with anything at all done to other names in between return the same id exactly when
   * the two specs have the same intent.
   */
  lemma SameIdExactlyOnSameIntent(start: Daemon, first: ContainerSpec, between: seq<Call>, second: ContainerSpec,
                                  setup: Setup)
    requires Consistent(start, setup) && Injective(setup.encode)
    requires first.name in start.containers ==> start.containers[first.name].from.Some?
    requires WellFormed(first) && PortsOk(first, setup) && WellFormed(second) && PortsOk(second, setup)
    requires first.name == second.name
    requires forall i | 0 <= i < |between| :: Target(between[i]) != first.name
    ensures var (d, r) := Ensured(start, first, WORKING, setup);
            r.Ok? && (Ensured(Run(d, between, setup), second, WORKING, setup).1 == r <==> SameIntent(first, second))
  {
    var (d, r) := Ensured(start, first, WORKING, setup);
    EnsuredContainer(start, first, setup);
    StepIsConsistent(start, Ensure(first, WORKING), setup);
    RunLeavesOthers(d, between, first.name, setup);
    var c := d.containers[first.name];
    SameIntentIsTransitive(c.from.value, first, second);
    RunIsConsistent(d, between, setup);
    KeptExactlyOnSameIntent(d, between, second, setup);
  }

  /** The container an ensured spec ends with was created from a spec of the same intent. */
  lemma EnsuredContainer(d: Daemon, spec: ContainerSpec, setup: Setup)
    requires Consistent(d, setup) && Injective(setup.encode)
    requires spec.name in d.containers ==> d.containers[spec.name].from.Some?
    requires WellFormed(spec) && PortsOk(spec, setup)
    ensures var (after, r) := Ensured(d, spec, WORKING, setup);
            && spec.name in after.containers
            && r == Ok(after.containers[spec.name].id)
            && after.containers[spec.name].from.Some?
            && SameIntent(after.containers[spec.name].from.value, spec)
  {
    if spec.name in d.containers {
      MatchesDecidesIntent(d.containers[spec.name], spec, setup);
    }
  }

  lemma SameIntentIsTransitive(s: ContainerSpec, t: ContainerSpec, u: ContainerSpec)
    requires SameIntent(s, t)
    ensures SameIntent(s, u) <==> SameIntent(t, u)
  {
  }

  /** The daemon would take a new container for this spec. */
  predicate Creates(spec: ContainerSpec, answers: Answers, setup: Setup) {
    PortsOk(spec, setup) && answers.create in {Accepted, NameTaken(true)}
  }

  lemma CreatedOutcome(d: Daemon, spec: ContainerSpec, hash: string, answers: Answers, setup: Setup)
    ensures var (after, r) := Created(d, spec, hash, answers, setup);
            && (r.Ok? <==> Creates(spec, answers, setup))
            && (r.Ok? ==>
                  && r.value == d.nextId
                  && after.containers
                       == d.containers[spec.name := Container(d.nextId, Some(Stamped(spec, hash)), Some(spec))])
            && (r.Err? ==> after == d || after == Without(d, spec.name))
  {
    var c := Container(d.nextId, Some(Stamped(spec, hash)), Some(spec));
    assert (d.containers - {spec.name})[spec.name := c] == d.containers[spec.name := c];
  }

  /**
   * Whatever the daemon answers, an ensure succeeds exactly if it can look and then either keeps the container or is
   * let remove it and create another; and it creates one only if it does not keep one.
   */
  lemma EnsureSucceedsExactly(d: Daemon, spec: ContainerSpec, answers: Answers, setup: Setup)
    requires WellFormed(spec)
    ensures var (after, r) := Ensured(d, spec, answers, setup);
            var there := spec.name in d.containers;
            var keeps := there && Matches(d.containers[spec.name], spec, setup);
            && (r.Ok? <==> answers.inspect && (keeps || ((there ==> answers.remove) && Creates(spec, answers, setup))))
            && (r.Ok? && keeps ==> after == d && r.value == d.containers[spec.name].id)
            && (r.Ok? && !keeps ==> r.value == d.nextId)
  {
    CreatedOutcome(d, spec, HashOf(spec, setup), answers, setup);
    CreatedOutcome(Without(d, spec.name), spec, HashOf(spec, setup), answers, setup);
  }

  lemma WithoutTwice(d: Daemon, name: string)
    ensures Without(Without(d, name), name) == Without(d, name)
  {
    assert d.containers - {name} - {name} == d.containers - {name};
  }

  /** When it fails no container is new, and at most the one of this name is gone, if it could be removed. */
  lemma FailedEnsureAddsNothing(d: Daemon, spec: ContainerSpec, answers: Answers, setup: Setup)
    requires WellFormed(spec) && Ensured(d, spec, answers, setup).1.Err?
    ensures var after := Ensured(d, spec, answers, setup).0;
            && (after == d || after == d.(containers := d.containers - {spec.name}))
            && (!answers.inspect || (spec.name in d.containers && !answers.remove) ==> after == d)
  {
    CreatedOutcome(d, spec, HashOf(spec, setup), answers, setup);
    CreatedOutcome(Without(d, spec.name), spec, HashOf(spec, setup), answers, setup);
    WithoutTwice(d, spec.name);
  }

  /** When it succeeds this name's container has the spec's hash and the id returned, and no other changes. */
  lemma EnsuredMatches(d: Daemon, spec: ContainerSpec, answers: Answers, setup: Setup)
    requires WellFormed(spec) && Ensured(d, spec, answers, setup).1.Ok?
    ensures var (after, r) := Ensured(d, spec, answers, setup);
            && spec.name in after.containers && after.containers[spec.name].id == r.value
            && Matches(after.containers[spec.name], spec, setup)
            && (after == d || after.containers[spec.name].from == Some(spec))
            && after.containers - {spec.name} == d.containers - {spec.name}
  {
    var hash := HashOf(spec, setup);
    var without := Without(d, spec.name);
    CreatedOutcome(d, spec, hash, answers, setup);
    CreatedOutcome(without, spec, hash, answers, setup);
  }

  /** After any run of calls a container created here has all its spec's labels, the hash label as set here, no more. */
  lemma LabelsAreTheSpecs(start: Daemon, calls: seq<Call>, name: string, setup: Setup)
    requires Consistent(start, setup)
    requires name in Run(start, calls, setup).containers && Run(start, calls, setup).containers[name].from.Some?
    ensures var c := Run(start, calls, setup).containers[name];
            var spec := c.from.value;
            && c.labels.Some? && c.labels.value.Keys == spec.labels.Keys + {LABEL_CONFIG_HASH}
            && c.labels.value[LABEL_CONFIG_HASH] == setup.encode(Canonical(spec))
            && forall k | k in spec.labels && k != LABEL_CONFIG_HASH :: c.labels.value[k] == spec.labels[k]
  {
    RunIsConsistent(start, calls, setup);
  }

  // ---- What the hash does not see ----

  /** The capabilities handed to Docker: dropping everything is the default for a nil list only. */
  function DroppedCaps(s: Security): seq<string> {
    if s.capDrop.Nil? then ["ALL"] else s.capDrop.elements
  }

  /**
   * Specs of one intent, between which EnsureContainer never recreates, are handed to Docker with the same
   * dropped capabilities unless one leaves the list nil and the other leaves it empty.
   */
  lemma KeptContainerDropsTheSame(s: ContainerSpec, t: ContainerSpec)
    requires SameIntent(s, t)
    ensures multiset(DroppedCaps(s.security)) == multiset(DroppedCaps(t.security))
       <==> !(s.security.capDrop.Items() == [] && s.security.capDrop.Nil? != t.security.capDrop.Nil?)
  {
    var a, b := s.security.capDrop, t.security.capDrop;
    assert |multiset(a.Items())| == |a.Items()| && |multiset(b.Items())| == |b.Items()|;
    assert "ALL" in multiset(["ALL"]);
  }

  /**
   * The default spelled out is another intent: dropping "ALL" by name and dropping it by leaving the list nil ask
   * Docker for the same thing, yet ensuring one after the other recreates the container.
   */
  lemma SpelledOutDefaultDiffers(s: ContainerSpec)
    requires s.security.capDrop.Nil?
    ensures var t := s.(security := s.security.(capDrop := Elements(["ALL"])));
            DroppedCaps(s.security) == DroppedCaps(t.security) && !SameIntent(s, t)
  {
    assert "ALL" in multiset(["ALL"]);
  }

  /** The security options handed to Docker. */
  function SecurityOptions(s: Security): seq<string> {
    s.securityOpt.Items() + if s.noNewPrivileges then ["no-new-privileges=true"] else []
  }

  /**
   * Privilege escalation is forbidden only when a spec asks for it: options left at their zero value forbid it
   * nowhere, whereas capabilities left at theirs are all dropped.
   */
  lemma EscalationForbiddenOnlyOnRequest(s: Security)
    ensures "no-new-privileges=true" in SecurityOptions(s)
       <==> s.noNewPrivileges || "no-new-privileges=true" in s.securityOpt.Items()
    ensures s == Security(Nil, Nil, false, false, Nil) ==>
              "no-new-privileges=true" !in SecurityOptions(s) && DroppedCaps(s) == ["ALL"]
  {
    var asked := ["no-new-privileges=true"];
    assert asked[0] in asked;
    var opts := SecurityOptions(s);
    assert s.noNewPrivileges ==> opts[|s.securityOpt.Items()|] == asked[0];
  }
}
