/** External mode: the rewrite of the DaemonSet's pod template when platforms are registered by
    some other system. */
module External {
  import opened Results
  import opened Subsequences

  // ---------- the part of a pod spec that is touched ----------

  /** The container and volume names the code mentions; every other name is `Other`. */
  datatype Name = PlatformRegistration | PckCertsWatcher | Efivars | PlatformInfo | Other(text: string)

  /** The command words `-i`, `--id` and `$(NODE_NAME)`; every other word is `Plain`. */
  datatype Word = FlagI | FlagId | NodeName | Plain(text: string)

  datatype Mount = Mount(name: Name, path: string)

  datatype Container = Container(name: Name, command: Option<seq<Word>>, mounts: Option<seq<Mount>>, image: string)

  datatype Volume = Volume(name: Name, source: string)

  datatype Pod = Pod(initContainers: Option<seq<Container>>, containers: seq<Container>, volumes: Option<seq<Volume>>)

  datatype RewriteError = NoWatcher | NoCommand | NoFlag

  /** `Panicked`: the index past the flag is out of range. */
  datatype Outcome<+T> = Done(value: T) | Failed(error: RewriteError) | Panicked

  // ---------- specification ----------

  function NotNamed(n: Name): Container -> bool { (c: Container) => c.name != n }
  function NotVolume(n: Name): Volume -> bool { (v: Volume) => v.name != n }
  function NotMount(n: Name): Mount -> bool { (m: Mount) => m.name != n }

  function FilterSome<T>(s: Option<seq<T>>, keep: T -> bool): Option<seq<T>> {
    if s.Some? then Some(Filter(s.value, keep)) else None
  }

  /** Position of the first container named `n`; the length of the list when there is none. */
  function FindNamed(cs: seq<Container>, n: Name): (i: nat)
    ensures i <= |cs| && (i < |cs| ==> cs[i].name == n)
    ensures forall k :: 0 <= k < i ==> cs[k].name != n
  {
    if cs == [] || cs[0].name == n then 0 else 1 + FindNamed(cs[1..], n)
  }

  function FindFlag(ws: seq<Word>): (i: nat)
    ensures i <= |ws| && (i < |ws| ==> ws[i] == FlagI)
    ensures forall k :: 0 <= k < i ==> ws[k] != FlagI
  {
    if ws == [] || ws[0] == FlagI then 0 else 1 + FindFlag(ws[1..])
  }

  function LiteralId(c: Container): Outcome<Container> {
    if c.command.None? then Failed(NoCommand) else
      var ws := c.command.value;
      var i := FindFlag(ws);
      if i == |ws| then Failed(NoFlag)
      else if i + 1 == |ws| then Panicked
      else Done(c.(command := Some(ws[i := FlagId][i + 1 := NodeName]),
                   mounts := FilterSome(c.mounts, NotMount(PlatformInfo))))
  }

  /** The init containers that remain, before the watcher is rewritten. */
  function Remaining(p: Pod): seq<Container> {
    if p.initContainers.Some? then Filter(p.initContainers.value, NotNamed(PlatformRegistration)) else []
  }

  function Rewritten(p: Pod): Outcome<Pod> {
    var rest := Remaining(p);
    var k := FindNamed(rest, PckCertsWatcher);
    if k == |rest| then Failed(NoWatcher) else
      var watcher := LiteralId(rest[k]);
      match watcher
      case Failed(e) => Failed(e)
      case Panicked => Panicked
      case Done(w) => Done(Pod(Some(rest[k := w]), p.containers,
                               FilterSome(FilterSome(p.volumes, NotVolume(Efivars)), NotVolume(PlatformInfo))))
  }

  // ---------- the code ----------

  class PodSpec {
    var initContainers: Option<seq<Container>>
    var containers: seq<Container>
    var volumes: Option<seq<Volume>>

    ghost function Now(): Pod reads this { Pod(initContainers, containers, volumes) }

    constructor (p: Pod)
      ensures Now() == p
    {
      initContainers, containers, volumes := p.initContainers, p.containers, p.volumes;
    }

    method RemoveVolume(n: Name)
      modifies this`volumes
      ensures volumes == FilterSome(old(volumes), NotVolume(n))
    {
      if volumes.Some? {
        var kept := Retain(volumes.value, NotVolume(n));
        volumes := Some(kept);
      }
    }

    method RemoveInitContainer(n: Name)
      modifies this`initContainers
      ensures initContainers == FilterSome(old(initContainers), NotNamed(n))
    {
      if initContainers.Some? {
        var kept := Retain(initContainers.value, NotNamed(n));
        initContainers := Some(kept);
      }
    }

    method FindWatcher() returns (k: nat)
      requires initContainers.Some?
      ensures k == FindNamed(initContainers.value, PckCertsWatcher)
    {
      var cs := initContainers.value;
      k := 0;
      while k < |cs| && cs[k].name != PckCertsWatcher
        invariant k <= |cs|
        invariant forall j :: 0 <= j < k ==> cs[j].name != PckCertsWatcher
      {
        k := k + 1;
      }
    }

    /** The first init container named `pck-certs-watcher` is replaced by what `LiteralId` makes of
        it; on an error the pod spec is abandoned. */
    method UseNodeNameAsLiteralId() returns (r: Outcome<()>)
      modifies this`initContainers
      ensures var cs := if old(initContainers).Some? then old(initContainers).value else [];
              var k := FindNamed(cs, PckCertsWatcher);
              if k == |cs| then r == Failed(NoWatcher)
              else match LiteralId(cs[k])
                   case Failed(e) => r == Failed(e)
                   case Panicked => r == Panicked
                   case Done(w) => r == Done(()) && initContainers == Some(cs[k := w])
    {
      if initContainers.None? {
        return Failed(NoWatcher);
      }
      var cs := initContainers.value;
      var k := FindWatcher();
      if k == |cs| {
        return Failed(NoWatcher);
      }
      if cs[k].command.None? {
        return Failed(NoCommand);
      }
      var command := cs[k].command.value;
      var flagIndex := Position(command);
      if flagIndex == |command| {
        return Failed(NoFlag);
      }
      command := command[flagIndex := FlagId];
      if flagIndex + 1 >= |command| {
        return Panicked;
      }
      command := command[flagIndex + 1 := NodeName];
      var mounts := cs[k].mounts;
      if mounts.Some? {
        var kept := Retain(mounts.value, NotMount(PlatformInfo));
        mounts := Some(kept);
      }
      initContainers := Some(cs[k := cs[k].(command := Some(command), mounts := mounts)]);
      r := Done(());
    }

    static method Position(ws: seq<Word>) returns (i: nat)
      ensures i == FindFlag(ws)
    {
      i := 0;
      while i < |ws| && ws[i] != FlagI
        invariant i <= |ws|
        invariant forall j :: 0 <= j < i ==> ws[j] != FlagI
      {
        i := i + 1;
      }
    }

    method RewriteForExternal() returns (r: Outcome<()>)
      modifies this
      ensures match Rewritten(old(Now()))
              case Failed(e) => r == Failed(e)
              case Panicked => r == Panicked
              case Done(p) => r == Done(()) && Now() == p
    {
      RemoveInitContainer(PlatformRegistration);
      RemoveVolume(Efivars);
      r := UseNodeNameAsLiteralId();
      if r.Done? {
        RemoveVolume(PlatformInfo);
      }
    }
  }

  // ---------- mounts ----------

  predicate Provides(vs: Option<seq<Volume>>, n: Name) {
    vs.Some? && exists v :: v in vs.value && v.name == n
  }

  predicate Mounts(c: Container, n: Name) {
    c.mounts.Some? && exists m :: m in c.mounts.value && m.name == n
  }

  ghost predicate ContainerResolves(c: Container, vs: Option<seq<Volume>>) {
    forall n :: Mounts(c, n) ==> Provides(vs, n)
  }

  /** Every mount of every container names a volume of the pod. */
  ghost predicate Resolves(p: Pod) {
    && (p.initContainers.Some? ==> forall c :: c in p.initContainers.value ==> ContainerResolves(c, p.volumes))
    && forall c :: c in p.containers ==> ContainerResolves(c, p.volumes)
  }

  lemma ProvidesWithout(vs: Option<seq<Volume>>, n: Name, gone: Name)
    ensures Provides(FilterSome(vs, NotVolume(gone)), n) <==> Provides(vs, n) && n != gone
  {
    if vs.Some? {
      var kept := Filter(vs.value, NotVolume(gone));
      FilterMembers(vs.value, NotVolume(gone));
      assert forall v :: v in kept <==> v in vs.value && v.name != gone;
    }
  }

  lemma ProvidesAfter(p: Pod, n: Name)
    requires Rewritten(p).Done?
    ensures Provides(Rewritten(p).value.volumes, n) <==>
            Provides(p.volumes, n) && n != Efivars && n != PlatformInfo
  {
    ProvidesWithout(p.volumes, n, Efivars);
    ProvidesWithout(FilterSome(p.volumes, NotVolume(Efivars)), n, PlatformInfo);
  }

  lemma MountsAfter(c: Container, n: Name)
    requires LiteralId(c).Done?
    ensures Mounts(LiteralId(c).value, n) <==> Mounts(c, n) && n != PlatformInfo
  {
    if c.mounts.Some? {
      FilterMembers(c.mounts.value, NotMount(PlatformInfo));
    }
  }

  /** What a container that is left alone may mount for its mounts to resolve afterwards. */
  ghost predicate Safe(c: Container, vs: Option<seq<Volume>>) {
    !Mounts(c, Efivars) && !Mounts(c, PlatformInfo) && ContainerResolves(c, vs)
  }

  /** The same for the rewritten container, which may have mounted `platform-info`. */
  ghost predicate SafeWatcher(c: Container, vs: Option<seq<Volume>>) {
    !Mounts(c, Efivars) && forall n :: Mounts(c, n) && n != PlatformInfo ==> Provides(vs, n)
  }

  lemma KeptResolves(p: Pod, c: Container)
    requires Rewritten(p).Done?
    ensures ContainerResolves(c, Rewritten(p).value.volumes) <==> Safe(c, p.volumes)
  {
    forall n ensures Provides(Rewritten(p).value.volumes, n) <==>
                     Provides(p.volumes, n) && n != Efivars && n != PlatformInfo
    {
      ProvidesAfter(p, n);
    }
  }

  lemma WatcherResolves(p: Pod, c: Container)
    requires Rewritten(p).Done? && LiteralId(c).Done?
    ensures ContainerResolves(LiteralId(c).value, Rewritten(p).value.volumes) <==> SafeWatcher(c, p.volumes)
  {
    forall n ensures Mounts(LiteralId(c).value, n) <==> Mounts(c, n) && n != PlatformInfo {
      MountsAfter(c, n);
    }
    forall n ensures Provides(Rewritten(p).value.volumes, n) <==>
                     Provides(p.volumes, n) && n != Efivars && n != PlatformInfo
    {
      ProvidesAfter(p, n);
    }
  }

  /** Exactly when mounts still resolve after the rewrite: nothing that remains mounts `efivars`,
      nothing but the rewritten container mounts `platform-info`, and all else resolved before. */
  lemma MountIntegrity(p: Pod)
    requires Rewritten(p).Done?
    ensures var rest := Remaining(p);
            var k := FindNamed(rest, PckCertsWatcher);
            Resolves(Rewritten(p).value) <==>
              && SafeWatcher(rest[k], p.volumes)
              && (forall i :: 0 <= i < |rest| && i != k ==> Safe(rest[i], p.volumes))
              && forall c :: c in p.containers ==> Safe(c, p.volumes)
  {
    var rest := Remaining(p);
    var k := FindNamed(rest, PckCertsWatcher);
    var q := Rewritten(p).value;
    var after := q.initContainers.value;
    assert after == rest[k := LiteralId(rest[k]).value];
    WatcherResolves(p, rest[k]);
    forall c ensures ContainerResolves(c, q.volumes) <==> Safe(c, p.volumes) {
      KeptResolves(p, c);
    }
    assert (forall c :: c in after ==> ContainerResolves(c, q.volumes)) <==>
           (forall i :: 0 <= i < |after| ==> ContainerResolves(after[i], q.volumes));
    forall i | 0 <= i < |rest| && i != k ensures ContainerResolves(after[i], q.volumes) <==> Safe(rest[i], p.volumes) {
      assert after[i] == rest[i];
    }
    assert after[k] == LiteralId(rest[k]).value;
  }

  /** The shape the shipped template has: names are unique, mounts resolve, only
      `platform-registration` mounts `efivars`, only it and `pck-certs-watcher` mount
      `platform-info`. */
  ghost predicate WellFormed(p: Pod) {
    && p.initContainers.Some?
    && var cs := p.initContainers.value;
    && (forall i, j :: 0 <= i < j < |cs| ==> cs[i].name != cs[j].name)
    && Resolves(p)
    && (forall c :: c in cs && Mounts(c, Efivars) ==> c.name == PlatformRegistration)
    && (forall c :: c in cs && Mounts(c, PlatformInfo) ==> c.name == PlatformRegistration || c.name == PckCertsWatcher)
    && (forall c :: c in p.containers ==> !Mounts(c, Efivars) && !Mounts(c, PlatformInfo))
  }

  /** Such a template always keeps its mounts intact. */
  lemma WellFormedStaysIntact(p: Pod)
    requires WellFormed(p) && Rewritten(p).Done?
    ensures Resolves(Rewritten(p).value)
  {
    var cs, rest := p.initContainers.value, Remaining(p);
    var k := FindNamed(rest, PckCertsWatcher);
    FilterMembers(cs, NotNamed(PlatformRegistration));
    forall i | 0 <= i < |rest| ensures rest[i] in cs && rest[i].name != PlatformRegistration {
      assert rest[i] in rest;
    }
    forall i | 0 <= i < |rest| && rest[i].name == PckCertsWatcher ensures i == k {
      FilterUnique(cs, i, k);
    }
    MountIntegrity(p);
  }

  lemma {:induction false} FilterUnique(cs: seq<Container>, i: nat, j: nat)
    requires forall a, b :: 0 <= a < b < |cs| ==> cs[a].name != cs[b].name
    requires var rest := Filter(cs, NotNamed(PlatformRegistration));
             i < |rest| && j < |rest| && rest[i].name == rest[j].name
    ensures i == j
  {
    if cs == [] {
    } else {
      var n := |cs| - 1;
      var init := Filter(cs[..n], NotNamed(PlatformRegistration));
      FilterMembers(cs[..n], NotNamed(PlatformRegistration));
      if i < |init| && j < |init| {
        FilterUnique(cs[..n], i, j);
      } else {
        forall a | 0 <= a < |init| ensures init[a].name != cs[n].name {
          assert init[a] in init;
        }
      }
    }
  }

  // ---------- what changes ----------

  /** When the rewrite goes through, fails and panics. */
  lemma RewriteOutcome(p: Pod)
    ensures var rest := Remaining(p);
            var k := FindNamed(rest, PckCertsWatcher);
            && (Rewritten(p) == Failed(NoWatcher) <==> forall c :: c in rest ==> c.name != PckCertsWatcher)
            && (k < |rest| ==>
                && (Rewritten(p) == Failed(NoCommand) <==> rest[k].command.None?)
                && (rest[k].command.Some? ==>
                    var ws := rest[k].command.value;
                    && (Rewritten(p) == Failed(NoFlag) <==> FlagI !in ws)
                    && (Rewritten(p).Panicked? <==> ws != [] && FlagI !in ws[..|ws| - 1] && ws[|ws| - 1] == FlagI)))
  {
  }

  /** `t` is `s` with exactly the two adjacent words from `i` on replaced. */
  ghost predicate TwoWordsChanged(s: seq<Word>, t: seq<Word>, i: nat) {
    && |t| == |s| && i + 1 < |s| && s[i] == FlagI && FlagI !in s[..i]
    && t[i] == FlagId && t[i + 1] == NodeName
    && forall j :: 0 <= j < |s| && j != i && j != i + 1 ==> t[j] == s[j]
  }

  /** `q` holds what `s` holds at the positions `at`, but for the one at `k`. */
  ghost predicate SelectsBut(s: seq<Container>, keep: Container -> bool, q: seq<Container>, at: seq<nat>, k: nat) {
    && Picks(at, |s|) && |q| == |at| && k < |at|
    && (forall i :: 0 <= i < |s| ==> (keep(s[i]) <==> i in at))
    && forall j :: 0 <= j < |at| && j != k ==> q[j] == s[at[j]]
  }

  /** Of the init containers exactly those not named `platform-registration` remain, in order and
      unchanged but for the first `pck-certs-watcher`, of whose command exactly two adjacent words
      change; the other containers stay. */
  lemma RewriteEffect(p: Pod) returns (at: seq<nat>, k: nat)
    requires Rewritten(p).Done?
    ensures var q := Rewritten(p).value;
            && p.initContainers.Some? && q.initContainers.Some? && q.containers == p.containers
            && SelectsBut(p.initContainers.value, NotNamed(PlatformRegistration), q.initContainers.value, at, k)
            && var before, after := p.initContainers.value[at[k]], q.initContainers.value[k];
            && (forall j :: 0 <= j < k ==> q.initContainers.value[j].name != PckCertsWatcher)
            && before.name == after.name == PckCertsWatcher && before.image == after.image
            && before.command.Some? && after.command.Some?
            && TwoWordsChanged(before.command.value, after.command.value, FindFlag(before.command.value))
  {
    var cs, rest := p.initContainers.value, Remaining(p);
    at := FilterSelects(cs, NotNamed(PlatformRegistration));
    k := FindNamed(rest, PckCertsWatcher);
    assert rest[k] == cs[at[k]];
    var ws := rest[k].command.value;
    assert forall j :: 0 <= j < FindFlag(ws) ==> ws[j] == ws[..FindFlag(ws)][j];
  }

  /** Of its mounts exactly those of `platform-info` go; the others stay, in order and unchanged. */
  lemma RewriteKeepsMounts(c: Container) returns (at: seq<nat>)
    requires LiteralId(c).Done?
    ensures c.mounts.Some? <==> LiteralId(c).value.mounts.Some?
    ensures c.mounts.Some? ==>
              Selects(c.mounts.value, NotMount(PlatformInfo), LiteralId(c).value.mounts.value, at)
  {
    at := [];
    if c.mounts.Some? {
      at := FilterSelects(c.mounts.value, NotMount(PlatformInfo));
    }
  }

  function KeptVolume(): Volume -> bool { (v: Volume) => v.name != Efivars && v.name != PlatformInfo }

  /** Exactly the volumes `efivars` and `platform-info` go; the others stay, in order and unchanged. */
  lemma RewriteKeepsVolumes(p: Pod) returns (at: seq<nat>)
    requires Rewritten(p).Done?
    ensures var q := Rewritten(p).value;
            && (p.volumes.Some? <==> q.volumes.Some?)
            && (p.volumes.Some? ==> Selects(p.volumes.value, KeptVolume(), q.volumes.value, at))
  {
    at := [];
    if p.volumes.Some? {
      FilterTwice(p.volumes.value, NotVolume(Efivars), NotVolume(PlatformInfo), KeptVolume());
      at := FilterSelects(p.volumes.value, KeptVolume());
    }
  }

  // ---------- the shipped template ----------

  const REGISTRATION: Container := Container(PlatformRegistration,
    Some([Plain("pck-cert-tool"), Plain("get-platforms"), Plain("-p"), Plain("/usr/local/bin/get_platform_info"),
          FlagI, Plain("/run/dcap/platform/id"), Plain("-n"), Plain("$(NAMESPACE)"), Plain("-e"),
          Plain("/run/efivars"), Plain("--node-name"), NodeName]),
    Some([Mount(Efivars, "/run/efivars"), Mount(PlatformInfo, "/run/dcap/platform")]), "intel-tdx-qgs:latest")

  const WATCHER: Container := Container(PckCertsWatcher,
    Some([Plain("pck-cert-tool"), Plain("get-certificates"), FlagI, Plain("/run/dcap/platform/id"), Plain("-n"),
          Plain("$(NAMESPACE)"), Plain("-o"), Plain("/run/dcap/cache/.dcap-qcnl")]),
    Some([Mount(Other("dcap-qcnl-cache"), "/run/dcap/cache/"), Mount(PlatformInfo, "/run/dcap/platform")]),
    "intel-tdx-qgs:latest")

  const QGS: Container := Container(Other("tdx-qgs"), None,
    Some([Mount(Other("dcap-qcnl-cache"), "/run/dcap/cache"), Mount(Other("qgs-socket"), "/var/run/tdx-qgs")]),
    "intel-tdx-qgs:latest")

  const VOLUMES: seq<Volume> := [Volume(Other("dcap-qcnl-cache"), "emptyDir"),
                                 Volume(Other("qgs-socket"), "hostPath"), Volume(PlatformInfo, "emptyDir"),
                                 Volume(Efivars, "hostPath")]

  function Template(): Pod { Pod(Some([REGISTRATION, WATCHER]), [QGS], Some(VOLUMES)) }

  lemma TemplateProvides(n: Name)
    ensures Provides(Some(VOLUMES), n) <==>
            n == Other("dcap-qcnl-cache") || n == Other("qgs-socket") || n == PlatformInfo || n == Efivars
  {
  }

  lemma TemplateMounts(n: Name)
    ensures Mounts(REGISTRATION, n) <==> n == Efivars || n == PlatformInfo
    ensures Mounts(WATCHER, n) <==> n == Other("dcap-qcnl-cache") || n == PlatformInfo
    ensures Mounts(QGS, n) <==> n == Other("dcap-qcnl-cache") || n == Other("qgs-socket")
  {
    var r, w, q := REGISTRATION.mounts.value, WATCHER.mounts.value, QGS.mounts.value;
    assert r[0] in r && r[1] in r && w[0] in w && w[1] in w && q[0] in q && q[1] in q;
    assert forall m :: m in r <==> m == r[0] || m == r[1];
    assert forall m :: m in w <==> m == w[0] || m == w[1];
    assert forall m :: m in q <==> m == q[0] || m == q[1];
  }

  lemma TemplateRemaining()
    ensures Remaining(Template()) == [WATCHER] && FindFlag(WATCHER.command.value) == 2
  {
    var cs := [REGISTRATION, WATCHER];
    assert cs[..1] == [REGISTRATION] && [REGISTRATION][..0] == [];
    assert Filter([REGISTRATION], NotNamed(PlatformRegistration)) == [];
    var ws := WATCHER.command.value;
    assert ws[2] == FlagI && ws[0] != FlagI && ws[1] != FlagI;
  }

  lemma TwoContainersWellFormed(r: Container, w: Container, q: Container, vs: seq<Volume>)
    requires r.name == PlatformRegistration && w.name == PckCertsWatcher
    requires !Mounts(w, Efivars) && !Mounts(q, Efivars) && !Mounts(q, PlatformInfo)
    requires ContainerResolves(r, Some(vs)) && ContainerResolves(w, Some(vs)) && ContainerResolves(q, Some(vs))
    ensures WellFormed(Pod(Some([r, w]), [q], Some(vs)))
  {
  }

  lemma OneWatcherDone(p: Pod, w: Container)
    requires Remaining(p) == [w] && w.name == PckCertsWatcher
    requires w.command.Some? && FindFlag(w.command.value) + 1 < |w.command.value|
    ensures Rewritten(p).Done?
  {
  }

  /** The shipped template is rewritten without error and stays intact. */
  lemma TemplateIsRewritten()
    ensures WellFormed(Template())
    ensures Rewritten(Template()).Done? && Resolves(Rewritten(Template()).value)
  {
    forall n ensures
      && (Mounts(REGISTRATION, n) ==> Provides(Some(VOLUMES), n))
      && (Mounts(WATCHER, n) ==> Provides(Some(VOLUMES), n))
      && (Mounts(QGS, n) ==> Provides(Some(VOLUMES), n))
    {
      TemplateProvides(n);
      TemplateMounts(n);
    }
    TemplateMounts(Efivars);
    TemplateMounts(PlatformInfo);
    TwoContainersWellFormed(REGISTRATION, WATCHER, QGS, VOLUMES);
    TemplateRemaining();
    OneWatcherDone(Template(), WATCHER);
    WellFormedStaysIntact(Template());
  }
}
