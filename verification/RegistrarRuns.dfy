/** Runs of the registrar from start to end, and what they show about the index and about expiry. */
module RegistrarRuns {
  import Bytes
  import opened Results
  import opened PlatformData
  import opened Registrar
  import opened RegistrarPause
  import CacheBlob
  import RegistrarCache
  import opened RegistrarWakeups

  // ---------- a registration up to its Secret ----------

  lemma {:induction false} RunSnoc(sha: Digest, s: State, es: seq<Event>, e: Event)
    requires Legal(sha, s, es) && Enabled(Run(sha, s, es), e)
    ensures Legal(sha, s, es + [e]) && Run(sha, s, es + [e]) == Step(sha, Run(sha, s, es), e)
    decreases |es|
  {
    if es == [] {
      RunCons(sha, s, e, []);
      assert es + [e] == [e] + [];
    } else {
      RunSnoc(sha, Step(sha, s, es[0]), es[1..], e);
      RunCons(sha, s, es[0], es[1..] + [e]);
      assert es + [e] == [es[0]] + (es[1..] + [e]);
    }
  }

  lemma {:induction false} SendsSnoc(es: seq<Event>, e: Event)
    ensures Sends(es + [e]) == Sends(es) + if IsSend(e) then 1 else 0
  {
    if es == [] {
      assert es + [e] == [e];
    } else {
      SendsSnoc(es[1..], e);
      assert (es + [e])[1..] == es[1..] + [e];
    }
  }

  lemma ReachesSnoc(sha: Digest, s: State, t: State, n: nat, e: Event)
    requires Reaches(sha, s, t, n) && Enabled(t, e)
    ensures Reaches(sha, s, Step(sha, t, e), n + if IsSend(e) then 1 else 0)
  {
    var es :| Leads(sha, s, es, t, n);
    RunSnoc(sha, s, es, e);
    SendsSnoc(es, e);
    assert Leads(sha, s, es + [e], Step(sha, t, e), n + if IsSend(e) then 1 else 0);
  }

  const EXPIRE: nat := CacheBlob.EXPIRE_SECONDS

  /** Nothing is under way for the platform, and it needs a registration. */
  ghost predicate Fresh(sha: Digest, s: State, p: Platform) {
    && NeedsRegistration(sha, s, p) && p.name !in s.pending && |s.active| < 4 && s.pause == None
    && 0 <= s.wall < 0x8000_0000_0000_0000 - EXPIRE
  }

  function RequestOf(p: Platform): Request
    requires PrepareRegistration(p.name, p.data).Ok?
  {
    PrepareRegistration(p.name, p.data).value
  }

  /** The blob of a registration whose answers are empty texts. */
  function BlobOf(s: State, p: Platform): CacheBlob.Blob
    requires PrepareRegistration(p.name, p.data).Ok? && 0 <= s.wall
  {
    CacheBlob.Blob(s.wall + EXPIRE, RequestOf(p).cpuSvn, [], [], [])
  }

  function AboutToStore(s: State, p: Platform): State
    requires PrepareRegistration(p.name, p.data).Ok? && 0 <= s.wall
  {
    WithStage(Watched(s, p), p.name, Storing(RequestOf(p), BlobOf(s, p), []))
  }

  /** A registration can get as far as its Secret. */
  lemma CanBeStored(sha: Digest, s: State, p: Platform)
    requires Fresh(sha, s, p)
    ensures Reaches(sha, s, AboutToStore(s, p), 2)
  {
    var admitted := WithAdmitted(s, p);
    var waiting := Paid(admitted, p.name, NO_CERTS);
    LeadsNowhere(sha, waiting);
    SendsOwed(sha, admitted, p.name, NO_CERTS, waiting, 0);
    CanBeAdmitted(sha, s, p, waiting, 2);
    SecondAnswer(sha, s, p, waiting);
    ReachesSnoc(sha, s, waiting, 2, At(p.name, TcbAnswer(Usable([]))));
  }

  lemma SecondAnswer(sha: Digest, s: State, p: Platform, waiting: State)
    requires Fresh(sha, s, p)
    requires waiting == Paid(WithAdmitted(s, p), p.name, NO_CERTS)
    ensures Enabled(waiting, At(p.name, TcbAnswer(Usable([]))))
    ensures Step(sha, waiting, At(p.name, TcbAnswer(Usable([])))) == AboutToStore(s, p)
  {
    var k, request := p.name, RequestOf(p);
    PrepareExact(k, p.data);
    WithStageTwice(Watched(s, p), k, Admitted(request), AwaitingTcb(request, NO_CERTS));
    assert waiting == WithStage(Watched(s, p), k, AwaitingTcb(request, NO_CERTS));
    assert Built(s.wall, request, NO_CERTS, []) == GoOn(Storing(request, BlobOf(s, p), []));
    WithStageTwice(Watched(s, p), k, AwaitingTcb(request, NO_CERTS), Storing(request, BlobOf(s, p), []));
  }

  /** The state in which the registration is over and its Secret stored. */
  function Stored(sha: Digest, s: State, p: Platform): State
    requires PrepareRegistration(p.name, p.data).Ok? && 0 <= s.wall
  {
    Watched(s, p).(pck := s.pck[PckName(p.name) := PckSecretOf(sha, RequestOf(p), BlobOf(s, p))])
  }

  lemma SecretIsStored(sha: Digest, s: State, p: Platform)
    requires Fresh(sha, s, p)
    ensures Reaches(sha, s, WithStage(Stored(sha, s, p), p.name, Indexing([])), 2)
  {
    var t := AboutToStore(s, p);
    CanBeStored(sha, s, p);
    ReachesSnoc(sha, s, t, 2, At(p.name, WriteSecret(true)));
    WithStageTwice(Stored(sha, s, p), p.name, Storing(RequestOf(p), BlobOf(s, p), []), Indexing([]));
    assert Step(sha, t, At(p.name, WriteSecret(true))) == WithStage(Stored(sha, s, p), p.name, Indexing([]));
  }

  lemma StageDropped(s: State, k: Name, stage: Stage)
    requires k !in s.active
    ensures WithStage(s, k, stage).active - {k} == s.active
  {
  }

  // ---------- a registered platform without an index entry ----------

  /** After the retry delay. */
  function Later(s: State): State { s.(clock := s.clock + REGISTRATION_RETRY_DELAY) }

  /** A failed index patch queues a retry. */
  lemma IndexFailsStep(sha: Digest, s: State, k: Name, piid: seq<Bytes.Byte>)
    requires k !in s.active && k !in s.pending
    ensures Enabled(WithStage(s, k, Indexing(piid)), At(k, WriteIndex(false)))
    ensures Step(sha, WithStage(s, k, Indexing(piid)), At(k, WriteIndex(false))) ==
            Queued(s, k, Wakeup(s.clock + REGISTRATION_RETRY_DELAY, true))
  {
    StageDropped(s, k, Indexing(piid));
  }

  /** It becomes due once the delay has passed. */
  lemma RetryStep(sha: Digest, s: State, k: Name, request: Request)
    requires k !in s.active && |s.active| < 4 && k !in s.pending
    requires Started(k, s.platform) == GoOn(Checking(request))
    ensures var retry := Queued(s, k, Wakeup(s.clock + REGISTRATION_RETRY_DELAY, true));
            var due := Step(sha, retry, Tick(Later(s).clock, s.wall));
            Enabled(due, Begin(k)) && Step(sha, due, Begin(k)) == WithStage(Later(s), k, Checking(request))
  {
    BeginStep(sha, Later(s), k, Wakeup(s.clock + REGISTRATION_RETRY_DELAY, true), request);
  }

  lemma RetryBegins(sha: Digest, s: State, p: Platform)
    requires Fresh(sha, s, p)
    ensures Reaches(sha, s, WithStage(Later(Stored(sha, s, p)), p.name, Checking(RequestOf(p))), 2)
  {
    var k, stored := p.name, Stored(sha, s, p);
    var retry := Queued(stored, k, Wakeup(stored.clock + REGISTRATION_RETRY_DELAY, true));
    var tick := Tick(Later(stored).clock, stored.wall);
    SecretIsStored(sha, s, p);
    IndexFailsStep(sha, stored, k, []);
    ReachesSnoc(sha, s, WithStage(stored, k, Indexing([])), 2, At(k, WriteIndex(false)));
    ReachesSnoc(sha, s, retry, 2, tick);
    RetryStep(sha, stored, k, RequestOf(p));
    ReachesSnoc(sha, s, Step(sha, retry, tick), 2, Begin(k));
  }

  /** A reconcile whose Secret is valid ends, and leaves things as they were. */
  lemma SkipStep(sha: Digest, s: State, k: Name, request: Request)
    requires k !in s.active && CheckResult(sha, s, k, request, true) == Ok(true)
    ensures Step(sha, WithStage(s, k, Checking(request)), At(k, Check(true))) == s
  {
    StageDropped(s, k, Checking(request));
  }

  lemma StoredIsValid(sha: Digest, s: State, p: Platform)
    requires Fresh(sha, s, p)
    ensures CheckResult(sha, Later(Stored(sha, s, p)), p.name, RequestOf(p), true) == Ok(true)
  {
    var t := Later(Stored(sha, s, p));
    assert LookupPck(t, p.name, true) == Found(PckSecretOf(sha, RequestOf(p), BlobOf(s, p)));
    RegistrarCache.CheckOfApplied(sha, RequestOf(p), BlobOf(s, p), RequestOf(p), s.wall);
  }

  /** A platform whose index patch fails after its Secret was stored: its one retry skips, and it
      is left settled, with a valid Secret and the index as it was. */
  lemma RegisteredWithoutIndexEntry(sha: Digest, s: State, p: Platform) returns (t: State)
    requires Fresh(sha, s, p)
    ensures Reaches(sha, s, t, 2) && Quiet(t, p.name) && t.index == s.index
    ensures PckName(p.name) in t.pck && t.pck[PckName(p.name)] == PckSecretOf(sha, RequestOf(p), BlobOf(s, p))
    ensures t.wall < BlobOf(s, p).expiration
  {
    t := Later(Stored(sha, s, p));
    RetryBegins(sha, s, p);
    StoredIsValid(sha, s, p);
    SkipStep(sha, t, p.name, RequestOf(p));
    ReachesSnoc(sha, s, WithStage(t, p.name, Checking(RequestOf(p))), 2, At(p.name, Check(true)));
  }

  // ---------- an expired Secret ----------

  /** The platform's stored Secret has expired. */
  ghost predicate Expired(sha: Digest, s: State, k: Name, request: Request, blob: CacheBlob.Blob) {
    PckName(k) in s.pck && s.pck[PckName(k)] == PckSecretOf(sha, request, blob) && blob.expiration <= s.wall
  }

  /** A registered platform whose Secret expires without anything being queued for it. */
  lemma ExpiryIsReached(sha: Digest, s: State, p: Platform) returns (t: State)
    requires Fresh(sha, s, p)
    ensures Reaches(sha, s, t, 2) && Quiet(t, p.name) && |t.active| < 4
    ensures Expired(sha, t, p.name, RequestOf(p), BlobOf(s, p))
  {
    var k, stored := p.name, Stored(sha, s, p);
    var indexing := WithStage(stored, k, Indexing([]));
    SecretIsStored(sha, s, p);
    StageDropped(stored, k, Indexing([]));
    ReachesSnoc(sha, s, indexing, 2, At(k, WriteIndex(true)));
    var done := Step(sha, indexing, At(k, WriteIndex(true)));
    ReachesSnoc(sha, s, done, 2, Tick(s.clock, BlobOf(s, p).expiration));
    t := Step(sha, done, Tick(s.clock, BlobOf(s, p).expiration));
  }

  /** An expired Secret is not refreshed on its own: however far the clocks go, without a watch
      event nothing is read or sent for the platform, and the Secret stays the expired one. */
  lemma ExpiredIsNotRefreshed(sha: Digest, s: State, k: Name, request: Request, blob: CacheBlob.Blob, es: seq<Event>)
    requires Quiet(s, k) && Expired(sha, s, k, request, blob)
    requires Legal(sha, s, es) && forall e :: e in es ==> !IsWatch(e, k)
    ensures Quiet(Run(sha, s, es), k) && forall e :: e in es ==> !IsAt(e, k) && !IsBegin(e, k)
    ensures Run(sha, s, es).wall >= blob.expiration ==> Expired(sha, Run(sha, s, es), k, request, blob)
  {
    QuietUntilWatched(sha, s, es, k);
    RegistrarCache.RunKeepsSecret(sha, s, es, k);
  }

  lemma CheckOfExpired(sha: Digest, s: State, k: Name, request: Request, blob: CacheBlob.Blob, current: Request)
    requires Expired(sha, s, k, request, blob) && k in s.active && s.active[k] == Checking(current)
    ensures Step(sha, s, At(k, Check(true))) == WithStage(s, k, Deciding(current))
  {
    RegistrarCache.CheckOfApplied(sha, request, blob, current, s.wall);
    assert CheckResult(sha, s, k, current, true) == Ok(false);
  }

  /** A watch event does lead to a refresh, whatever valid data it brings. */
  lemma WatchedIsRefreshed(sha: Digest, s: State, p: Platform, request: Request, blob: CacheBlob.Blob)
    returns (es: seq<Event>)
    requires Quiet(s, p.name) && Expired(sha, s, p.name, request, blob) && |s.active| < 4
    requires PrepareRegistration(p.name, p.data).Ok?
    ensures es == [Watch(p.name, Some(p.data)), Begin(p.name), At(p.name, Check(true))] && Watches(es, p.name)
    ensures Legal(sha, s, es) && Run(sha, s, es) == WithStage(Watched(s, p), p.name, Deciding(RequestOf(p)))
  {
    var k, begun := p.name, WithStage(Watched(s, p), p.name, Checking(RequestOf(p)));
    WatchStep(sha, s, p);
    BeginStep(sha, Watched(s, p), k, Wakeup(s.clock, false), RequestOf(p));
    CheckOfExpired(sha, begun, k, request, blob, RequestOf(p));
    WithStageTwice(Watched(s, p), k, Checking(RequestOf(p)), Deciding(RequestOf(p)));
    ThreeSteps(sha, s, Watch(k, Some(p.data)), Begin(k), At(k, Check(true)));
    es := [Watch(k, Some(p.data)), Begin(k), At(k, Check(true))];
    assert es[0] in es && IsWatch(es[0], k);
  }

  lemma ThreeSteps(sha: Digest, s: State, a: Event, b: Event, c: Event)
    requires Enabled(s, a) && Enabled(Step(sha, s, a), b) && Enabled(Step(sha, Step(sha, s, a), b), c)
    ensures Legal(sha, s, [a, b, c])
    ensures Run(sha, s, [a, b, c]) == Step(sha, Step(sha, Step(sha, s, a), b), c)
  {
    RunCons(sha, Step(sha, Step(sha, s, a), b), c, []);
    RunCons(sha, Step(sha, s, a), b, [c]);
    RunCons(sha, s, a, [b, c]);
    assert [c] + [] == [c] && [b] + [c] == [b, c] && [a] + [b, c] == [a, b, c];
  }

  ghost predicate Watches(es: seq<Event>, k: Name) {
    exists e :: e in es && IsWatch(e, k)
  }

  lemma UnwatchedStaysQuiet(sha: Digest, s: State, es: seq<Event>, k: Name)
    requires Legal(sha, s, es) && Quiet(s, k) && !Watches(es, k)
    ensures Quiet(Run(sha, s, es), k)
  {
    QuietUntilWatched(sha, s, es, k);
  }

  /** Some run, with or without a watch event for the platform, takes it past the validity check
      towards a new registration. */
  ghost predicate CanRefresh(sha: Digest, s: State, k: Name, watched: bool) {
    exists es :: && Legal(sha, s, es) && (watched <==> Watches(es, k))
                 && k in Run(sha, s, es).active && Run(sha, s, es).active[k].Deciding?
  }

  /** Exactly when an expired Secret can be refreshed: when a watch event for the platform occurs. */
  lemma RefreshedIffWatched(sha: Digest, s: State, p: Platform, request: Request, blob: CacheBlob.Blob, watched: bool)
    requires Quiet(s, p.name) && Expired(sha, s, p.name, request, blob) && |s.active| < 4
    requires PrepareRegistration(p.name, p.data).Ok?
    ensures CanRefresh(sha, s, p.name, watched) <==> watched
  {
    if watched {
      var es := WatchedIsRefreshed(sha, s, p, request, blob);
    } else {
      forall es | Legal(sha, s, es) && !Watches(es, p.name)
        ensures p.name !in Run(sha, s, es).active
      {
        UnwatchedStaysQuiet(sha, s, es, p.name);
      }
    }
  }
}
