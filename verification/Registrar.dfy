/** The registrar as a state machine: the atomic steps of up to four interleaved reconciles over
    the shared pause, the Secret store and the controller's queue. An `.await` ends a step. */
module Registrar {
  import opened Bytes
  import opened Results
  import opened Text
  import opened PlatformData
  import opened Pause
  import CacheBlob
  import PiidIndex

  type Name = seq<Byte>

  const MAX_CONCURRENT_REGISTRATIONS: nat := 4
  const WATCH_ERROR_BACKOFF: nat := 10 * SECOND
  const REGISTRATION_RETRY_DELAY: nat := 300 * SECOND

  // "-pck"
  const PCK_SUFFIX: seq<Byte> := [45, 112, 99, 107]
  // "piid-index"
  const PIID_INDEX_NAME: seq<Byte> := [112, 105, 105, 100, 45, 105, 110, 100, 101, 120]

  function PckName(k: Name): Name {
    k + PCK_SUFFIX
  }

  // ---------- the -pck Secret ----------

  datatype Annotation = FingerprintOf | ExpiresAt | OtherAnnotation(name: string)
  datatype PckKey = Certificate | OtherPckKey(name: string)

  datatype PckSecret = PckSecret(annotations: Option<map<Annotation, seq<Byte>>>, data: Option<map<PckKey, seq<Byte>>>)

  /** The Secret that a successful registration applies. */
  function PckSecretOf(sha: Digest, request: Request, blob: CacheBlob.Blob): PckSecret {
    PckSecret(Some(map[FingerprintOf := Fingerprint(sha, request), ExpiresAt := Decimal(blob.expiration)]),
              Some(map[Certificate := CacheBlob.Encode(blob)]))
  }

  datatype Lookup = Missing | ReadFailed | Found(secret: PckSecret)

  datatype CheckError = ApiError | ClockError

  /** `pck_secret_is_valid` */
  ghost function PckSecretIsValid(found: Lookup, fingerprint: seq<Byte>, wall: CacheBlob.UnixTime)
    : Result<bool, CheckError>
  {
    match found
    case Missing => Ok(false)
    case ReadFailed => Err(ApiError)
    case Found(secret) =>
      if secret.annotations.None? || FingerprintOf !in secret.annotations.value then Ok(false)
      else if secret.annotations.value[FingerprintOf] != fingerprint then Ok(false)
      else if wall < 0 then Err(ClockError)
      else if ExpiresAt !in secret.annotations.value then Ok(false)
      else
        var expiresAt := ParseU64(secret.annotations.value[ExpiresAt]);
        if expiresAt.None? || expiresAt.value <= wall then Ok(false)
        else if secret.data.None? || Certificate !in secret.data.value then Ok(false)
        else Ok(CacheBlob.WellFormed(secret.data.value[Certificate]))
  }

  // ---------- Intel PCS ----------

  datatype Answer<+T> =
    | Usable(value: T)                                            // a success that passes every check
    | Unusable                                                    // a success that fails one
    | HttpError(status: nat, retryAfter: Option<seq<Byte>>)
    | TransportError

  /** What the first request brings: the issuer chain, the filtered certificates and the PIID. */
  datatype Certs = Certs(certChain: Str, pckCerts: Str, piid: seq<Byte>)

  datatype Failure = RateLimited(seconds: nat) | Rejected | OtherFailure

  /** `handle_pcs_api_error` and the downcasts of `process_platform_secret` */
  function Classify<T>(a: Answer<T>): Failure {
    match a
    case HttpError(status, retryAfter) =>
      if status == 429 then RateLimited(ParseRetryAfter(retryAfter))
      else if 400 <= status < 500 then Rejected
      else OtherFailure
    case _ => OtherFailure
  }

  predicate Possible<T>(a: Answer<T>) {
    a.HttpError? ==> !(200 <= a.status < 300)
  }

  // ---------- states ----------

  /** Where the reconcile of one platform stands. */
  datatype Stage =
    | Checking(request: Request)                                  // about to read the -pck Secret
    | Deciding(request: Request)                                  // about to look at the pause
    | Admitted(request: Request)                                  // about to send the first request
    | AwaitingCerts(request: Request)
    | Certified(request: Request, certs: Certs)                   // about to send the second request
    | AwaitingTcb(request: Request, certs: Certs)
    | Storing(request: Request, blob: CacheBlob.Blob, piid: seq<Byte>)
    | Indexing(piid: seq<Byte>)
    | Throttled(seconds: nat)                                     // about to record a pause

  /** The one pending wake-up of a key: from a watch event or from a requeue timer. */
  datatype Wakeup = Wakeup(at: nat, fromTimer: bool)

  datatype Action = AwaitChange | Requeue(delay: nat)

  datatype State = State(
    clock: nat,                               // monotonic, nanoseconds
    wall: CacheBlob.UnixTime,                 // system time, seconds; may jump
    platform: map<Name, Option<SecretData>>,  // watched platform-data Secrets
    pck: map<Name, PckSecret>,
    index: PiidIndex.Managed,
    pause: Option<nat>,
    pending: map<Name, Wakeup>,
    active: map<Name, Stage>)

  // ---------- steps ----------

  /** The steps of one reconcile. */
  datatype Op =
    | Check(readable: bool)
    | Gate
    | SendCerts
    | CertsAnswer(certs: Answer<Certs>)
    | SendTcb
    | TcbAnswer(tcbInfo: Answer<Str>)
    | WriteSecret(secretOk: bool)
    | WriteIndex(indexOk: bool)
    | RecordPause

  datatype Event =
    | Tick(clock: nat, wall: CacheBlob.UnixTime)
    | Watch(k: Name, data: Option<SecretData>)
    | Delete(k: Name)
    | Begin(k: Name)
    | At(k: Name, op: Op)

  predicate OpEnabled(stage: Stage, op: Op) {
    match op
    case Check(_) => stage.Checking?
    case Gate => stage.Deciding?
    case SendCerts => stage.Admitted?
    case CertsAnswer(a) => stage.AwaitingCerts? && Possible(a)
    case SendTcb => stage.Certified?
    case TcbAnswer(a) => stage.AwaitingTcb? && Possible(a)
    case WriteSecret(_) => stage.Storing?
    case WriteIndex(_) => stage.Indexing?
    case RecordPause => stage.Throttled?
  }

  predicate Enabled(s: State, e: Event) {
    match e
    case Tick(clock, _) => s.clock <= clock
    case Watch(_, _) => true
    case Delete(_) => true
    case Begin(k) =>
      k in s.pending && s.pending[k].at <= s.clock && k !in s.active && |s.active| < MAX_CONCURRENT_REGISTRATIONS
    case At(k, op) => k in s.active && OpEnabled(s.active[k], op)
  }

  /** How a step of a reconcile ends: at another stage, or with the controller's next action. */
  datatype Progress = GoOn(stage: Stage) | Done(action: Action)

  function Failed(f: Failure): Progress {
    match f
    case RateLimited(seconds) => GoOn(Throttled(seconds))
    case Rejected => Done(AwaitChange)
    case OtherFailure => Done(Requeue(REGISTRATION_RETRY_DELAY))
  }

  function FitsBlob(request: Request, tcbInfo: Str, certs: Certs): bool {
    |request.cpuSvn| < U32_LIMIT && |tcbInfo| < U32_LIMIT &&
    |certs.certChain| < U32_LIMIT && |certs.pckCerts| < U32_LIMIT
  }

  /** `build_cache_blob` after the second answer; its errors are ordinary failures. */
  function Built(wall: CacheBlob.UnixTime, request: Request, certs: Certs, tcbInfo: Str): Progress {
    if wall < 0 || !FitsBlob(request, tcbInfo, certs) then Failed(OtherFailure)
    else
      var expiration := wall + CacheBlob.EXPIRE_SECONDS;
      var blob := CacheBlob.Blob(expiration, request.cpuSvn, tcbInfo, certs.certChain, certs.pckCerts);
      GoOn(Storing(request, blob, certs.piid))
  }

  ghost function LookupPck(s: State, k: Name, readable: bool): Lookup {
    if !readable then ReadFailed else if PckName(k) in s.pck then Found(s.pck[PckName(k)]) else Missing
  }

  ghost function CheckResult(sha: Digest, s: State, k: Name, request: Request, readable: bool)
    : Result<bool, CheckError>
  {
    PckSecretIsValid(LookupPck(s, k, readable), Fingerprint(sha, request), s.wall)
  }

  ghost function Checked(request: Request, valid: Result<bool, CheckError>): Progress {
    if valid.Err? then Done(Requeue(WATCH_ERROR_BACKOFF))
    else if valid.value then Done(AwaitChange)
    else GoOn(Deciding(request))
  }

  function Gated(request: Request, remaining: Option<nat>): Progress {
    if remaining.Some? then Done(Requeue(remaining.value)) else GoOn(Admitted(request))
  }

  ghost function Advance(sha: Digest, s: State, k: Name, stage: Stage, op: Op): Progress
    requires OpEnabled(stage, op)
  {
    match op
    case Check(readable) => Checked(stage.request, CheckResult(sha, s, k, stage.request, readable))
    case Gate => Gated(stage.request, RemainingAt(s.pause, s.clock))
    case SendCerts => GoOn(AwaitingCerts(stage.request))
    case CertsAnswer(a) => if a.Usable? then GoOn(Certified(stage.request, a.value)) else Failed(Classify(a))
    case SendTcb => GoOn(AwaitingTcb(stage.request, stage.certs))
    case TcbAnswer(a) => if a.Usable? then Built(s.wall, stage.request, stage.certs, a.value) else Failed(Classify(a))
    case WriteSecret(ok) => if ok then GoOn(Indexing(stage.piid)) else Failed(OtherFailure)
    case WriteIndex(ok) => if ok then Done(AwaitChange) else Failed(OtherFailure)
    case RecordPause => Done(Requeue(stage.seconds * SECOND))
  }

  /** `validate` at the start of `process_platform_secret`: invalid data is a permanent failure. */
  function Started(k: Name, platform: map<Name, Option<SecretData>>): Progress {
    if k !in platform || platform[k].None? then Done(AwaitChange)
    else
      var request := PrepareRegistration(k, platform[k].value);
      if request.Err? then Done(AwaitChange) else GoOn(Checking(request.value))
  }

  /** The controller keeps the earlier of two wake-ups for a key. */
  function Schedule(pending: map<Name, Wakeup>, k: Name, w: Wakeup): map<Name, Wakeup> {
    if k in pending && pending[k].at <= w.at then pending else pending[k := w]
  }

  function ActiveAfter(active: map<Name, Stage>, k: Name, p: Progress): map<Name, Stage> {
    if p.GoOn? then active[k := p.stage] else active - {k}
  }

  function PendingAfter(s: State, k: Name, p: Progress): map<Name, Wakeup> {
    if p.Done? && p.action.Requeue? then Schedule(s.pending, k, Wakeup(s.clock + p.action.delay, true)) else s.pending
  }

  function PckAfter(sha: Digest, s: State, k: Name, stage: Stage, op: Op): map<Name, PckSecret>
    requires OpEnabled(stage, op)
  {
    if op.WriteSecret? && op.secretOk then s.pck[PckName(k) := PckSecretOf(sha, stage.request, stage.blob)] else s.pck
  }

  function IndexAfter(s: State, k: Name, stage: Stage, op: Op): PiidIndex.Managed
    requires OpEnabled(stage, op)
  {
    if op.WriteIndex? && op.indexOk then PiidIndex.PatchPiidIndex(s.index, k, stage.piid) else s.index
  }

  function PauseAfter(s: State, stage: Stage, op: Op): Option<nat>
    requires OpEnabled(stage, op)
  {
    if op.RecordPause? then Extended(s.pause, s.clock + stage.seconds * SECOND) else s.pause
  }

  ghost function Step(sha: Digest, s: State, e: Event): State
    requires Enabled(s, e)
  {
    match e
    case Tick(clock, wall) => s.(clock := clock, wall := wall)
    case Watch(k, data) =>
      s.(platform := s.platform[k := data], pending := Schedule(s.pending, k, Wakeup(s.clock, false)))
    case Delete(k) => s.(platform := s.platform - {k})
    case Begin(k) =>
      s.(pending := s.pending - {k}, active := ActiveAfter(s.active, k, Started(k, s.platform)))
    case At(k, op) =>
      var stage := s.active[k];
      var p := Advance(sha, s, k, stage, op);
      s.(active := ActiveAfter(s.active, k, p), pending := PendingAfter(s, k, p),
         pck := PckAfter(sha, s, k, stage, op), index := IndexAfter(s, k, stage, op), pause := PauseAfter(s, stage, op))
  }

  function WithStage(s: State, k: Name, stage: Stage): State {
    s.(active := s.active[k := stage])
  }

  lemma WithStageTwice(s: State, k: Name, a: Stage, b: Stage)
    ensures WithStage(WithStage(s, k, a), k, b) == WithStage(s, k, b)
  {
    assert s.active[k := a][k := b] == s.active[k := b];
  }

  /** `es` is a run from `s`: each event is enabled when its turn comes. */
  ghost predicate Legal(sha: Digest, s: State, es: seq<Event>)
    decreases |es|
  {
    es == [] || (Enabled(s, es[0]) && Legal(sha, Step(sha, s, es[0]), es[1..]))
  }

  ghost function Run(sha: Digest, s: State, es: seq<Event>): State
    requires Legal(sha, s, es)
    decreases |es|
  {
    if es == [] then s else Run(sha, Step(sha, s, es[0]), es[1..])
  }

  lemma RunCons(sha: Digest, s: State, e: Event, es: seq<Event>)
    requires Enabled(s, e)
    ensures Legal(sha, s, [e] + es) <==> Legal(sha, Step(sha, s, e), es)
    ensures Legal(sha, s, [e] + es) ==> Run(sha, s, [e] + es) == Run(sha, Step(sha, s, e), es)
  {
  }

  lemma {:induction false} RunSplit(sha: Digest, s: State, es: seq<Event>, fs: seq<Event>)
    requires Legal(sha, s, es + fs)
    ensures Legal(sha, s, es) && Legal(sha, Run(sha, s, es), fs)
    ensures Run(sha, s, es + fs) == Run(sha, Run(sha, s, es), fs)
    decreases |es|
  {
    if es == [] {
      assert es + fs == fs;
    } else {
      assert (es + fs)[0] == es[0] && (es + fs)[1..] == es[1..] + fs;
      RunSplit(sha, Step(sha, s, es[0]), es[1..], fs);
    }
  }

  // ---------- what every reachable state satisfies ----------

  /** The Secret is one that some registration applied, with that request's CPU SVN in its blob. */
  ghost predicate AppliedFor(sha: Digest, secret: PckSecret, request: Request, blob: CacheBlob.Blob) {
    secret == PckSecretOf(sha, request, blob) && blob.cpuSvn == request.cpuSvn
  }

  ghost predicate Applied(sha: Digest, secret: PckSecret) {
    exists request, blob :: AppliedFor(sha, secret, request, blob)
  }

  /** A registrar process starts: nothing is queued or paused, and the Secrets it finds, if any, are
      those of earlier runs. */
  ghost predicate Initial(sha: Digest, s: State) {
    && s.pause == None && s.pending == map[] && s.active == map[]
    && (forall n :: n in s.pck ==> Applied(sha, s.pck[n]))
    && PiidIndex.OwnKeysOnly(s.index)
  }

  predicate StageSound(k: Name, stage: Stage) {
    && IsFixedLenHex(k, QE_ID_HEX_LEN)
    && (stage.Storing? ==> stage.blob.cpuSvn == stage.request.cpuSvn)
    && (stage.Throttled? ==> stage.seconds <= MAX_RETRY_AFTER)
  }

  ghost predicate Invariant(sha: Digest, s: State) {
    && |s.active| <= MAX_CONCURRENT_REGISTRATIONS
    && (forall k :: k in s.active ==> StageSound(k, s.active[k]))
    && (forall n :: n in s.pck ==> Applied(sha, s.pck[n]))
    && PiidIndex.OwnKeysOnly(s.index)
  }

  lemma ActiveCount(active: map<Name, Stage>, k: Name, p: Progress)
    ensures |ActiveAfter(active, k, p)| ==
            |active| + (if p.GoOn? then 1 else 0) - (if k in active then 1 else 0)
  {
  }

  lemma AdvanceSound(sha: Digest, s: State, k: Name, stage: Stage, op: Op)
    requires OpEnabled(stage, op) && StageSound(k, stage)
    ensures Advance(sha, s, k, stage, op).GoOn? ==> StageSound(k, Advance(sha, s, k, stage, op).stage)
  {
  }

  lemma StartedSound(k: Name, platform: map<Name, Option<SecretData>>)
    ensures Started(k, platform).GoOn? ==> StageSound(k, Started(k, platform).stage)
  {
  }

  lemma StepKeepsActive(sha: Digest, s: State, e: Event)
    requires Enabled(s, e) && Invariant(sha, s)
    ensures |Step(sha, s, e).active| <= MAX_CONCURRENT_REGISTRATIONS
    ensures forall k :: k in Step(sha, s, e).active ==> StageSound(k, Step(sha, s, e).active[k])
  {
    match e {
      case Begin(k) =>
        ActiveCount(s.active, k, Started(k, s.platform));
        StartedSound(k, s.platform);
      case At(k, op) =>
        ActiveCount(s.active, k, Advance(sha, s, k, s.active[k], op));
        AdvanceSound(sha, s, k, s.active[k], op);
      case _ =>
    }
  }

  lemma StepKeepsStore(sha: Digest, s: State, e: Event)
    requires Enabled(s, e) && Invariant(sha, s)
    ensures forall n :: n in Step(sha, s, e).pck ==> Applied(sha, Step(sha, s, e).pck[n])
  {
    if e.At? && e.op.WriteSecret? && e.op.secretOk {
      var stage := s.active[e.k];
      assert AppliedFor(sha, PckSecretOf(sha, stage.request, stage.blob), stage.request, stage.blob);
    }
  }

  lemma StepKeepsIndex(sha: Digest, s: State, e: Event)
    requires Enabled(s, e) && Invariant(sha, s)
    ensures PiidIndex.OwnKeysOnly(Step(sha, s, e).index)
  {
    if e.At? && e.op.WriteIndex? && e.op.indexOk {
      PiidIndex.WriteKeepsOwnKeys(s.index, PiidIndex.ByRegistrar(e.k, s.active[e.k].piid));
    }
  }

  lemma StepKeepsInvariant(sha: Digest, s: State, e: Event)
    requires Enabled(s, e) && Invariant(sha, s)
    ensures Invariant(sha, Step(sha, s, e))
  {
    StepKeepsActive(sha, s, e);
    StepKeepsStore(sha, s, e);
    StepKeepsIndex(sha, s, e);
  }

  lemma {:induction false} RunKeepsInvariant(sha: Digest, s: State, es: seq<Event>)
    requires Legal(sha, s, es) && Invariant(sha, s)
    ensures Invariant(sha, Run(sha, s, es))
    decreases |es|
  {
    if es == [] {
    } else {
      StepKeepsInvariant(sha, s, es[0]);
      RunKeepsInvariant(sha, Step(sha, s, es[0]), es[1..]);
    }
  }
}
