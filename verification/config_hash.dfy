/**
 * The hash of a container spec's intent, and which specs share it. JSON encoding followed by SHA-256 is one
 * function `encode` from canonical specs to digests.
 */
module ConfigHashing {
  import opened Sorting
  import opened Strings
  import opened Wrappers

  const LABEL_VERSION := "io.locorum.version"
  const LABEL_CONFIG_HASH := "io.locorum.confighash"

  /** A Go slice: JSON, and so the hash, tells a nil slice from an empty one. */
  datatype Slice<+T> = Nil | Elements(elements: seq<T>) {
    function Items(): seq<T> {
      if Nil? then [] else elements
    }
  }

  /** `append([]T(nil), items...)`, which stays nil when there is nothing to append. */
  function Appended<T>(items: seq<T>): Slice<T> {
    if items == [] then Nil else Elements(items)
  }

  datatype EnvSecret = EnvSecret(key: string, value: string)

  datatype Healthcheck = Healthcheck(test: Slice<string>, interval: int, timeout: int, retries: int, startPeriod: int)

  datatype Ulimit = Ulimit(name: string, soft: int, hard: int)

  datatype Resources = Resources(memoryLimit: int, cpuShares: int, logMaxSize: string, logMaxFiles: int,
                                 pidsLimit: int, ulimits: Slice<Ulimit>)

  datatype Security = Security(capDrop: Slice<string>, capAdd: Slice<string>, noNewPrivileges: bool,
                               readOnlyRootFS: bool, securityOpt: Slice<string>)

  datatype PortMap = PortMap(hostIP: string, hostPort: string, containerPort: string, proto: string)

  datatype BindMount = BindMount(source: string, target: string, readOnly: bool)

  datatype VolumeMount = VolumeMount(name: string, target: string, readOnly: bool)

  datatype TmpfsMount = TmpfsMount(target: string, options: string)

  datatype Mount = Mount(bind: Option<BindMount>, volume: Option<VolumeMount>, tmpfs: Option<TmpfsMount>)

  datatype NetworkAttachment = NetworkAttachment(network: string, aliases: Slice<string>)

  datatype ContainerSpec = ContainerSpec(
    name: string, image: string, cmd: Slice<string>, entrypoint: Slice<string>, env: Slice<string>,
    envSecrets: Slice<EnvSecret>, user: string, workingDir: string, tty: bool, labels: map<string, string>,
    ports: Slice<PortMap>, mounts: Slice<Mount>, networks: Slice<NetworkAttachment>, extraHosts: Slice<string>,
    healthcheck: Option<Healthcheck>, resources: Resources, security: Security, init: bool, restart: string)

  /** The local struct that is marshalled. */
  datatype CanonicalSpec = CanonicalSpec(
    image: string, cmd: Slice<string>, entrypoint: Slice<string>, env: Slice<string>, envSecrets: Slice<string>,
    user: string, workingDir: string, tty: bool, labels: Slice<(string, string)>, ports: Slice<PortMap>,
    mounts: Slice<Mount>, networks: Slice<NetworkAttachment>, extraHosts: Slice<string>,
    healthcheck: Option<Healthcheck>, resources: Resources, security: Security, init: bool, restart: string)

  // ---- Orders ----

  predicate AtMost(a: string, b: string) {
    !Less(b, a)
  }

  /** Labels sort by key, then by value. */
  predicate LabelAtMost(a: (string, string), b: (string, string)) {
    Less(a.0, b.0) || (a.0 == b.0 && AtMost(a.1, b.1))
  }

  lemma AtMostIsTotalOrder()
    ensures TotalOrder(AtMost)
  {
    forall a, b, c
      ensures AtMost(a, b) || AtMost(b, a)
      ensures AtMost(a, b) && AtMost(b, a) ==> a == b
      ensures AtMost(a, b) && AtMost(b, c) ==> AtMost(a, c)
    {
      LessIsStrictOrder(a, b, c);
      LessIsStrictOrder(b, a, c);
      LessIsStrictOrder(c, a, b);
      LessIsStrictOrder(c, b, a);
    }
  }

  lemma LabelAtMostIsTotalOrder()
    ensures TotalOrder(LabelAtMost)
  {
    AtMostIsTotalOrder();
    forall a: (string, string), b: (string, string), c: (string, string)
      ensures LabelAtMost(a, b) || LabelAtMost(b, a)
      ensures LabelAtMost(a, b) && LabelAtMost(b, a) ==> a == b
      ensures LabelAtMost(a, b) && LabelAtMost(b, c) ==> LabelAtMost(a, c)
    {
      LessIsStrictOrder(a.0, b.0, c.0);
      LessIsStrictOrder(b.0, a.0, c.0);
      assert AtMost(a.1, b.1) || AtMost(b.1, a.1);
      assert AtMost(a.1, b.1) && AtMost(b.1, c.1) ==> AtMost(a.1, c.1);
    }
  }

  // ---- Labels ----

  /** The labels that are part of the intent. */
  function Intended(labels: map<string, string>): map<string, string> {
    map k | k in labels && k != LABEL_VERSION && k != LABEL_CONFIG_HASH :: labels[k]
  }

  /** The pairs of a map in some order; every use of it is sorted. */
  ghost function Pairs(m: map<string, string>): seq<(string, string)> {
    if m == map[] then []
    else
      var k :| k in m;
      [(k, m[k])] + Pairs(m - {k})
  }

  /** Each pair of the map, once. */
  lemma {:induction false} PairsCount(m: map<string, string>, p: (string, string))
    ensures multiset(Pairs(m))[p] == if p.0 in m && m[p.0] == p.1 then 1 else 0
  {
    if m != map[] {
      var k :| k in m && Pairs(m) == [(k, m[k])] + Pairs(m - {k});
      PairsCount(m - {k}, p);
    }
  }

  lemma PairsExtendAt(m: map<string, string>, k: string, v: string, p: (string, string))
    requires k !in m
    ensures multiset(Pairs(m[k := v]))[p] == multiset(Pairs(m))[p] + if p == (k, v) then 1 else 0
  {
    PairsCount(m, p);
    PairsCount(m[k := v], p);
  }

  lemma AppendedCount(pairs: seq<(string, string)>, x: (string, string), p: (string, string))
    ensures multiset(pairs + [x])[p] == multiset(pairs)[p] + if p == x then 1 else 0
  {
  }

  lemma PairsExtend(m: map<string, string>, k: string, v: string, pairs: seq<(string, string)>)
    requires k !in m
    requires multiset(pairs) == multiset(Pairs(m))
    ensures multiset(pairs + [(k, v)]) == multiset(Pairs(m[k := v]))
  {
    var ours, theirs := multiset(pairs + [(k, v)]), multiset(Pairs(m[k := v]));
    forall p: (string, string)
      ensures theirs[p] == ours[p]
    {
      PairsExtendAt(m, k, v, p);
      AppendedCount(pairs, (k, v), p);
    }
    SameCounts(ours, theirs);
  }

  lemma SameCounts(a: multiset<(string, string)>, b: multiset<(string, string)>)
    requires forall p :: b[p] == a[p]
    ensures a == b
  {
  }

  /** Equal pairs mean that every entry of the one map is an entry of the other. */
  lemma EntryIsShared(m: map<string, string>, n: map<string, string>, k: string)
    requires multiset(Pairs(m)) == multiset(Pairs(n)) && k in m
    ensures k in n && n[k] == m[k]
  {
    PairsCount(m, (k, m[k]));
    PairsCount(n, (k, m[k]));
  }

  lemma PairsDecide(m: map<string, string>, n: map<string, string>)
    ensures multiset(Pairs(m)) == multiset(Pairs(n)) <==> m == n
  {
    if multiset(Pairs(m)) == multiset(Pairs(n)) {
      forall k | k in m
        ensures k in n && n[k] == m[k]
      {
        EntryIsShared(m, n, k);
      }
      forall k | k in n
        ensures k in m
      {
        EntryIsShared(n, m, k);
      }
    }
  }

  // ---- The canonical form ----

  function Keys(secrets: seq<EnvSecret>): seq<string> {
    if secrets == [] then [] else [secrets[0].key] + Keys(secrets[1..])
  }

  lemma {:induction false} KeysExtend(a: seq<EnvSecret>, b: EnvSecret)
    ensures Keys(a + [b]) == Keys(a) + [b.key]
  {
    if a == [] {
      assert a + [b] == [b];
    } else {
      assert (a + [b])[1..] == a[1..] + [b];
      KeysExtend(a[1..], b);
    }
  }

  function SortedCopy(s: Slice<string>): Slice<string> {
    Appended(Sort(s.Items(), AtMost))
  }

  ghost function SortedLabels(labels: map<string, string>): Slice<(string, string)> {
    Elements(Sort(Pairs(Intended(labels)), LabelAtMost))
  }

  ghost function Canonical(s: ContainerSpec): CanonicalSpec {
    CanonicalSpec(
      s.image, s.cmd, s.entrypoint, SortedCopy(s.env), Elements(Sort(Keys(s.envSecrets.Items()), AtMost)),
      s.user, s.workingDir, s.tty, SortedLabels(s.labels), s.ports, s.mounts, s.networks,
      SortedCopy(s.extraHosts), s.healthcheck, s.resources,
      Security(SortedCopy(s.security.capDrop), SortedCopy(s.security.capAdd), s.security.noNewPrivileges,
               s.security.readOnlyRootFS, SortedCopy(s.security.securityOpt)),
      s.init, s.restart)
  }

  /** Two lists with the same entries, however often each and in whatever order; nil counts as empty. */
  predicate SameEntries(a: Slice<string>, b: Slice<string>) {
    multiset(a.Items()) == multiset(b.Items())
  }

  predicate SameSecurity(a: Security, b: Security) {
    && SameEntries(a.capDrop, b.capDrop)
    && SameEntries(a.capAdd, b.capAdd)
    && SameEntries(a.securityOpt, b.securityOpt)
    && a.noNewPrivileges == b.noNewPrivileges
    && a.readOnlyRootFS == b.readOnlyRootFS
  }

  /**
   * The specs that mean the same container. Names, secret values and two bookkeeping labels are not looked at,
   * and neither is the order of the lists compared with SameEntries; everything else counts.
   */
  predicate SameIntent(s: ContainerSpec, t: ContainerSpec) {
    && s.image == t.image && s.cmd == t.cmd && s.entrypoint == t.entrypoint
    && SameEntries(s.env, t.env)
    && multiset(Keys(s.envSecrets.Items())) == multiset(Keys(t.envSecrets.Items()))
    && s.user == t.user && s.workingDir == t.workingDir && s.tty == t.tty
    && Intended(s.labels) == Intended(t.labels)
    && s.ports == t.ports && s.mounts == t.mounts && s.networks == t.networks
    && SameEntries(s.extraHosts, t.extraHosts)
    && s.healthcheck == t.healthcheck && s.resources == t.resources
    && SameSecurity(s.security, t.security)
    && s.init == t.init && s.restart == t.restart
  }

  lemma SortedCopyDecides(a: Slice<string>, b: Slice<string>)
    ensures SortedCopy(a) == SortedCopy(b) <==> SameEntries(a, b)
  {
    AtMostIsTotalOrder();
    SortDecides(a.Items(), b.Items(), AtMost);
  }

  lemma KeysDecide(a: Slice<EnvSecret>, b: Slice<EnvSecret>)
    ensures Sort(Keys(a.Items()), AtMost) == Sort(Keys(b.Items()), AtMost)
       <==> multiset(Keys(a.Items())) == multiset(Keys(b.Items()))
  {
    AtMostIsTotalOrder();
    SortDecides(Keys(a.Items()), Keys(b.Items()), AtMost);
  }

  lemma LabelsDecide(a: map<string, string>, b: map<string, string>)
    ensures SortedLabels(a) == SortedLabels(b) <==> Intended(a) == Intended(b)
  {
    LabelAtMostIsTotalOrder();
    SortDecides(Pairs(Intended(a)), Pairs(Intended(b)), LabelAtMost);
    PairsDecide(Intended(a), Intended(b));
  }

  /** The canonical forms of two specs coincide exactly when the specs have the same intent. */
  lemma CanonicalDecidesIntent(s: ContainerSpec, t: ContainerSpec)
    ensures Canonical(s) == Canonical(t) <==> SameIntent(s, t)
  {
    SortedCopyDecides(s.env, t.env);
    SortedCopyDecides(s.extraHosts, t.extraHosts);
    SortedCopyDecides(s.security.capDrop, t.security.capDrop);
    SortedCopyDecides(s.security.capAdd, t.security.capAdd);
    SortedCopyDecides(s.security.securityOpt, t.security.securityOpt);
    KeysDecide(s.envSecrets, t.envSecrets);
    LabelsDecide(s.labels, t.labels);
  }

  /** No two canonical specs collide. */
  ghost predicate Injective(encode: CanonicalSpec -> string) {
    forall c, d :: encode(c) == encode(d) ==> c == d
  }

  lemma HashDecidesIntent(s: ContainerSpec, t: ContainerSpec, encode: CanonicalSpec -> string)
    requires Injective(encode)
    ensures encode(Canonical(s)) == encode(Canonical(t)) <==> SameIntent(s, t)
  {
    CanonicalDecidesIntent(s, t);
  }

  /**
   * The identification of nil with empty stops at the sorted lists: a spec with a nil command and the same spec
   * with an empty one hash apart, although no entry differs.
   */
  lemma NilCommandIsNotEmptyCommand(s: ContainerSpec, encode: CanonicalSpec -> string)
    requires Injective(encode) && s.cmd.Nil?
    ensures encode(Canonical(s)) != encode(Canonical(s.(cmd := Elements([]))))
  {
    HashDecidesIntent(s, s.(cmd := Elements([])), encode);
  }

  // ---- The loops ----

  /** Collecting the secrets' keys, values left behind. */
  method CollectKeys(secrets: seq<EnvSecret>) returns (keys: seq<string>)
    ensures keys == Keys(secrets)
  {
    keys := [];
    for i := 0 to |secrets|
      invariant keys == Keys(secrets[..i])
    {
      KeysExtend(secrets[..i], secrets[i]);
      assert secrets[..i + 1] == secrets[..i] + [secrets[i]];
      keys := keys + [secrets[i].key];
    }
    assert secrets[..|secrets|] == secrets;
  }

  lemma OneMoreLabel(labels: map<string, string>, todo: set<string>, k: string)
    requires k in labels && k in todo
    ensures var m := Intended(labels);
            m - (todo - {k}) == if k in m then (m - todo)[k := labels[k]] else m - todo
  {
  }

  /** Collecting the label pairs: the map is walked in any order, the two bookkeeping labels are skipped. */
  method CollectLabels(labels: map<string, string>) returns (pairs: seq<(string, string)>)
    ensures multiset(pairs) == multiset(Pairs(Intended(labels)))
  {
    pairs := [];
    var todo := labels.Keys;
    assert Intended(labels) - todo == map[];
    while todo != {}
      invariant todo <= labels.Keys
      invariant multiset(pairs) == multiset(Pairs(Intended(labels) - todo))
      decreases |todo|
    {
      var k :| k in todo;
      OneMoreLabel(labels, todo, k);
      if k != LABEL_VERSION && k != LABEL_CONFIG_HASH {
        PairsExtend(Intended(labels) - todo, k, labels[k], pairs);
        pairs := pairs + [(k, labels[k])];
      }
      todo := todo - {k};
    }
    assert Intended(labels) - {} == Intended(labels);
  }

  method ConfigHash(s: ContainerSpec, encode: CanonicalSpec -> string) returns (h: string)
    ensures h == encode(Canonical(s))
  {
    var env := SortedCopy(s.env);
    var keys := CollectKeys(s.envSecrets.Items());
    keys := Sort(keys, AtMost);
    var labels := CollectLabels(s.labels);
    LabelAtMostIsTotalOrder();
    SortDecides(labels, Pairs(Intended(s.labels)), LabelAtMost);
    labels := Sort(labels, LabelAtMost);
    var c := CanonicalSpec(
      s.image, s.cmd, s.entrypoint, env, Elements(keys), s.user, s.workingDir, s.tty, Elements(labels), s.ports,
      s.mounts, s.networks, Appended(s.extraHosts.Items()), s.healthcheck, s.resources, s.security, s.init,
      s.restart);
    c := c.(extraHosts := SortedCopy(c.extraHosts));
    var security := c.security.(capDrop := SortedCopy(c.security.capDrop));
    security := security.(capAdd := SortedCopy(security.capAdd));
    security := security.(securityOpt := SortedCopy(security.securityOpt));
    c := c.(security := security);
    h := encode(c);
  }
}
