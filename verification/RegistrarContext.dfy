/** The registrar's code in its sequential form: one reconcile run from start to end, with the
    answers it gets scripted. What it does is what the state machine does with those answers. */
module RegistrarContext {
  import opened Bytes
  import opened Results
  import opened Text
  import opened PlatformData
  import opened Pause
  import opened Registrar
  import CacheBlob
  import PiidIndex

  /** What the outside world answers during one reconcile. */
  datatype Script = Script(readable: bool, certs: Answer<Certs>, tcbInfo: Answer<Str>, secretOk: bool, indexOk: bool)

  predicate PossibleScript(script: Script) {
    Possible(script.certs) && Possible(script.tcbInfo)
  }

  // ---------- the machine, driven by a script ----------

  /** The step a reconcile at this stage takes when it gets the scripted answers. */
  function NextOp(stage: Stage, script: Script): (op: Op)
    ensures PossibleScript(script) ==> OpEnabled(stage, op)
  {
    match stage
    case Checking(_) => Check(script.readable)
    case Deciding(_) => Gate
    case Admitted(_) => SendCerts
    case AwaitingCerts(_) => CertsAnswer(script.certs)
    case Certified(_, _) => SendTcb
    case AwaitingTcb(_, _) => TcbAnswer(script.tcbInfo)
    case Storing(_, _, _) => WriteSecret(script.secretOk)
    case Indexing(_) => WriteIndex(script.indexOk)
    case Throttled(_) => RecordPause
  }

  /** Steps to go, at most. */
  function Rank(stage: Stage): nat {
    match stage
    case Checking(_) => 8
    case Deciding(_) => 7
    case Admitted(_) => 6
    case AwaitingCerts(_) => 5
    case Certified(_, _) => 4
    case AwaitingTcb(_, _) => 3
    case Storing(_, _, _) => 2
    case Indexing(_) => 1
    case Throttled(_) => 0
  }

  /** How a reconcile ends: the state it leaves, and the action it asks of the controller. */
  datatype End = End(state: State, action: Action)

  ghost function NextProgress(sha: Digest, s: State, k: Name, script: Script): (p: Progress)
    requires k in s.active && PossibleScript(script)
    ensures p.GoOn? ==> Rank(p.stage) < Rank(s.active[k])
  {
    Advance(sha, s, k, s.active[k], NextOp(s.active[k], script))
  }

  ghost function NextState(sha: Digest, s: State, k: Name, script: Script): (t: State)
    requires k in s.active && PossibleScript(script)
    ensures NextProgress(sha, s, k, script).GoOn? ==>
              k in t.active && t.active[k] == NextProgress(sha, s, k, script).stage
  {
    Step(sha, s, At(k, NextOp(s.active[k], script)))
  }

  /** The reconcile of `k`, played from where it stands to its end without interference. */
  ghost function Play(sha: Digest, s: State, k: Name, script: Script): End
    requires k in s.active && PossibleScript(script)
    decreases Rank(s.active[k])
  {
    if NextProgress(sha, s, k, script).Done?
    then End(NextState(sha, s, k, script), NextProgress(sha, s, k, script).action)
    else Play(sha, NextState(sha, s, k, script), k, script)
  }

  /** The controller starts the reconcile of `k` and the reconcile is played to its end. */
  ghost function Processed(sha: Digest, s: State, k: Name, script: Script): End
    requires Enabled(s, Begin(k)) && PossibleScript(script)
  {
    var t := Step(sha, s, Begin(k));
    if k in t.active then Play(sha, t, k, script) else End(t, AwaitChange)
  }

  /** The step is one of `k`, with the answer that the script has for it. */
  predicate Scripted(e: Event, k: Name, script: Script) {
    && e.At? && e.k == k
    && (e.op.Check? ==> e.op.readable == script.readable)
    && (e.op.CertsAnswer? ==> e.op.certs == script.certs)
    && (e.op.TcbAnswer? ==> e.op.tcbInfo == script.tcbInfo)
    && (e.op.WriteSecret? ==> e.op.secretOk == script.secretOk)
    && (e.op.WriteIndex? ==> e.op.indexOk == script.indexOk)
  }

  /** Playing a reconcile is a run of the machine, of scripted steps only. */
  lemma {:induction false} PlayIsRun(sha: Digest, s: State, k: Name, script: Script) returns (es: seq<Event>)
    requires k in s.active && PossibleScript(script)
    ensures Legal(sha, s, es) && Run(sha, s, es) == Play(sha, s, k, script).state
    ensures forall e :: e in es ==> Scripted(e, k, script)
    decreases Rank(s.active[k])
  {
    var e := At(k, NextOp(s.active[k], script));
    var t := NextState(sha, s, k, script);
    es := [];
    if NextProgress(sha, s, k, script).GoOn? {
      es := PlayIsRun(sha, t, k, script);
    }
    RunCons(sha, s, e, es);
    es := [e] + es;
  }

  /** So is a whole reconcile, after the event that begins it. */
  lemma ProcessedIsRun(sha: Digest, s: State, k: Name, script: Script) returns (es: seq<Event>)
    requires Enabled(s, Begin(k)) && PossibleScript(script)
    ensures Legal(sha, s, [Begin(k)] + es) && Run(sha, s, [Begin(k)] + es) == Processed(sha, s, k, script).state
    ensures forall e :: e in es ==> Scripted(e, k, script)
  {
    var t := Step(sha, s, Begin(k));
    es := [];
    if k in t.active {
      es := PlayIsRun(sha, t, k, script);
    }
    RunCons(sha, s, Begin(k), es);
  }

  /** The controller's queue after a reconcile of `k` has ended at `clock`. */
  function Queue(pending: map<Name, Wakeup>, k: Name, clock: nat, action: Action): map<Name, Wakeup> {
    if action.Requeue? then Schedule(pending, k, Wakeup(clock + action.delay, true)) else pending
  }

  lemma NextEffect(sha: Digest, s: State, k: Name, script: Script)
    requires k in s.active && PossibleScript(script)
    ensures var p, t := NextProgress(sha, s, k, script), NextState(sha, s, k, script);
            && t.active == ActiveAfter(s.active, k, p) && t.pending == PendingAfter(s, k, p)
            && t.clock == s.clock && t.wall == s.wall && t.platform == s.platform
  {
  }

  /** A reconcile ends with its slot free, its action queued, and the clocks, the watched data and
      the other reconciles as they were. */
  lemma {:induction false} PlayEnds(sha: Digest, s: State, k: Name, script: Script)
    requires k in s.active && PossibleScript(script)
    ensures var end := Play(sha, s, k, script);
            && end.state.active == s.active - {k}
            && end.state.pending == Queue(s.pending, k, s.clock, end.action)
            && end.state.clock == s.clock && end.state.wall == s.wall && end.state.platform == s.platform
    decreases Rank(s.active[k])
  {
    NextEffect(sha, s, k, script);
    if NextProgress(sha, s, k, script).GoOn? {
      PlayEnds(sha, NextState(sha, s, k, script), k, script);
    }
  }

  // ---------- what each step plays ----------

  lemma GoesOn(sha: Digest, s: State, k: Name, script: Script, next: Stage)
    requires k in s.active && PossibleScript(script)
    requires NextProgress(sha, s, k, script) == GoOn(next) && NextState(sha, s, k, script) == WithStage(s, k, next)
    ensures Play(sha, s, k, script) == Play(sha, WithStage(s, k, next), k, script)
  {
  }

  lemma SendCertsPlays(sha: Digest, s: State, k: Name, script: Script)
    requires k in s.active && s.active[k].Admitted? && PossibleScript(script)
    ensures Play(sha, s, k, script) == Play(sha, WithStage(s, k, AwaitingCerts(s.active[k].request)), k, script)
  {
    GoesOn(sha, s, k, script, AwaitingCerts(s.active[k].request));
  }

  lemma CertsPlay(sha: Digest, s: State, k: Name, script: Script)
    requires k in s.active && s.active[k].AwaitingCerts? && PossibleScript(script) && script.certs.Usable?
    ensures Play(sha, s, k, script) ==
            Play(sha, WithStage(s, k, Certified(s.active[k].request, script.certs.value)), k, script)
  {
    GoesOn(sha, s, k, script, Certified(s.active[k].request, script.certs.value));
  }

  lemma CertsFail(sha: Digest, s: State, k: Name, script: Script)
    requires k in s.active && s.active[k].AwaitingCerts? && PossibleScript(script) && !script.certs.Usable?
    ensures Fails(sha, s, k, script, Classify(script.certs))
  {
  }

  lemma SendTcbPlays(sha: Digest, s: State, k: Name, script: Script)
    requires k in s.active && s.active[k].Certified? && PossibleScript(script)
    ensures Play(sha, s, k, script) ==
            Play(sha, WithStage(s, k, AwaitingTcb(s.active[k].request, s.active[k].certs)), k, script)
  {
    GoesOn(sha, s, k, script, AwaitingTcb(s.active[k].request, s.active[k].certs));
  }

  lemma TcbPlays(sha: Digest, s: State, k: Name, script: Script)
    requires k in s.active && s.active[k].AwaitingTcb? && PossibleScript(script) && script.tcbInfo.Usable?
    ensures var built := Built(s.wall, s.active[k].request, s.active[k].certs, script.tcbInfo.value);
            && (built.Done? ==> Fails(sha, s, k, script, OtherFailure))
            && (built.GoOn? ==> Play(sha, s, k, script) == Play(sha, WithStage(s, k, built.stage), k, script))
  {
  }

  lemma TcbFails(sha: Digest, s: State, k: Name, script: Script)
    requires k in s.active && s.active[k].AwaitingTcb? && PossibleScript(script) && !script.tcbInfo.Usable?
    ensures Fails(sha, s, k, script, Classify(script.tcbInfo))
  {
  }

  lemma StorePlays(sha: Digest, s: State, k: Name, script: Script)
    requires k in s.active && s.active[k].Storing? && PossibleScript(script)
    ensures !script.secretOk ==> Fails(sha, s, k, script, OtherFailure)
    ensures var secret := PckSecretOf(sha, s.active[k].request, s.active[k].blob);
            var stored := WithStage(s, k, Indexing(s.active[k].piid)).(pck := s.pck[PckName(k) := secret]);
            script.secretOk ==> Play(sha, s, k, script) == Play(sha, stored, k, script)
  {
  }

  lemma IndexPlays(sha: Digest, s: State, k: Name, script: Script)
    requires k in s.active && s.active[k].Indexing? && PossibleScript(script)
    ensures !script.indexOk ==> Fails(sha, s, k, script, OtherFailure)
    ensures var index := PiidIndex.PatchPiidIndex(s.index, k, s.active[k].piid);
            script.indexOk ==>
              Play(sha, s, k, script) == End(s.(active := s.active - {k}, index := index), AwaitChange)
  {
  }

  /** The state in which the reconcile of `k` is over and `action` is queued. */
  function Concluded(s: State, k: Name, action: Action): State {
    s.(active := s.active - {k}, pending := Queue(s.pending, k, s.clock, action))
  }

  lemma CheckPlays(sha: Digest, s: State, k: Name, script: Script)
    requires k in s.active && s.active[k].Checking? && PossibleScript(script)
    ensures var request := s.active[k].request;
            Play(sha, s, k, script) ==
            match CheckResult(sha, s, k, request, script.readable)
            case Err(_) => End(Concluded(s, k, Requeue(WATCH_ERROR_BACKOFF)), Requeue(WATCH_ERROR_BACKOFF))
            case Ok(valid) => if valid then End(Concluded(s, k, AwaitChange), AwaitChange)
                              else Play(sha, WithStage(s, k, Deciding(request)), k, script)
  {
  }

  lemma GatePlays(sha: Digest, s: State, k: Name, script: Script)
    requires k in s.active && s.active[k].Deciding? && PossibleScript(script)
    ensures Play(sha, s, k, script) ==
            match RemainingAt(s.pause, s.clock)
            case Some(delay) => End(Concluded(s, k, Requeue(delay)), Requeue(delay))
            case None => Play(sha, WithStage(s, k, Admitted(s.active[k].request)), k, script)
  {
  }

  /** The next step fails as `f`, changing nothing but where the reconcile stands. */
  ghost predicate Fails(sha: Digest, s: State, k: Name, script: Script, f: Failure)
    requires k in s.active && PossibleScript(script)
  {
    && NextProgress(sha, s, k, script) == Failed(f)
    && NextState(sha, s, k, script) ==
       s.(active := ActiveAfter(s.active, k, Failed(f)), pending := PendingAfter(s, k, Failed(f)))
  }

  lemma LimitPlays(sha: Digest, s: State, k: Name, script: Script, seconds: nat)
    requires k in s.active && PossibleScript(script) && Fails(sha, s, k, script, RateLimited(seconds))
    ensures var paused := s.(pause := Extended(s.pause, s.clock + seconds * SECOND));
            Play(sha, s, k, script) == End(Concluded(paused, k, Requeue(seconds * SECOND)), Requeue(seconds * SECOND))
  {
    var throttled := WithStage(s, k, Throttled(seconds));
    GoesOn(sha, s, k, script, Throttled(seconds));
    ThrottledPlays(sha, throttled, k, script);
    assert throttled.active - {k} == s.active - {k};
  }

  /** What follows a failure: rate limiting pauses everything and is retried after the pause, a
      rejection waits for new data, anything else is retried after five minutes. */
  lemma FailurePlays(sha: Digest, s: State, k: Name, script: Script, f: Failure)
    requires k in s.active && PossibleScript(script) && Fails(sha, s, k, script, f)
    ensures Play(sha, s, k, script) ==
            match f
            case RateLimited(seconds) =>
              var paused := s.(pause := Extended(s.pause, s.clock + seconds * SECOND));
              End(Concluded(paused, k, Requeue(seconds * SECOND)), Requeue(seconds * SECOND))
            case Rejected => End(Concluded(s, k, AwaitChange), AwaitChange)
            case OtherFailure =>
              End(Concluded(s, k, Requeue(REGISTRATION_RETRY_DELAY)), Requeue(REGISTRATION_RETRY_DELAY))
  {
    if f.RateLimited? {
      LimitPlays(sha, s, k, script, f.seconds);
    }
  }

  lemma ThrottledPlays(sha: Digest, s: State, k: Name, script: Script)
    requires k in s.active && s.active[k].Throttled? && PossibleScript(script)
    ensures var delay := s.active[k].seconds * SECOND;
            var paused := s.(pause := Extended(s.pause, s.clock + delay));
            Play(sha, s, k, script) == End(Concluded(paused, k, Requeue(delay)), Requeue(delay))
  {
  }

  lemma BeginSteps(sha: Digest, s: State, k: Name)
    requires Enabled(s, Begin(k))
    ensures Step(sha, s, Begin(k)) ==
            match Started(k, s.platform)
            case GoOn(stage) => WithStage(s, k, stage).(pending := s.pending - {k})
            case Done(_) => s.(pending := s.pending - {k})
  {
    assert k !in s.active && s.active - {k} == s.active;
  }

  // ---------- the code ----------

  /** `pck_secret_is_valid` */
  method CheckPckSecret(found: Lookup, fingerprint: seq<Byte>, wall: CacheBlob.UnixTime)
    returns (r: Result<bool, CheckError>)
    ensures r == PckSecretIsValid(found, fingerprint, wall)
  {
    if found.Missing? {
      return Ok(false);
    }
    if found.ReadFailed? {
      return Err(ApiError);
    }
    var secret := found.secret;
    if secret.annotations.None? || FingerprintOf !in secret.annotations.value {
      return Ok(false);
    }
    var annotations := secret.annotations.value;
    if annotations[FingerprintOf] != fingerprint {
      return Ok(false);
    }
    if wall < 0 {
      return Err(ClockError);
    }
    if ExpiresAt !in annotations {
      return Ok(false);
    }
    var expiresAt := ParseU64(annotations[ExpiresAt]);
    if expiresAt.None? || expiresAt.value <= wall {
      return Ok(false);
    }
    if secret.data.None? || Certificate !in secret.data.value {
      return Ok(false);
    }
    var blob := CacheBlob.ParseCacheBlob(secret.data.value[Certificate]);
    return Ok(blob.Ok?);
  }

  /** `build_cache_blob` fails and succeeds as the state machine says. */
  method BuildFor(wall: CacheBlob.UnixTime, request: Request, certs: Certs, tcbInfo: Str)
    returns (r: Result<(seq<Byte>, U64), CacheBlob.BuildError>)
    ensures r.Err? ==> Built(wall, request, certs, tcbInfo) == Failed(OtherFailure)
    ensures r.Ok? ==> CacheBlob.WellFormed(r.value.0) && CacheBlob.Decoded(r.value.0).expiration == r.value.1
    ensures r.Ok? ==> Built(wall, request, certs, tcbInfo) ==
                      GoOn(Storing(request, CacheBlob.Decoded(r.value.0), certs.piid))
  {
    r := CacheBlob.BuildCacheBlob(wall, request.cpuSvn, tcbInfo, certs.certChain, certs.pckCerts);
    ghost var fields := [request.cpuSvn, tcbInfo, certs.certChain, certs.pckCerts];
    if r.Err? && r.error.FieldTooLarge? {
      assert exists f :: f in fields && |f| >= U32_LIMIT;
      assert !FitsBlob(request, tcbInfo, certs);
    }
  }

  class RegistrarContext {
    var clock: nat
    var wall: CacheBlob.UnixTime
    var platform: map<Name, Option<SecretData>>
    var pck: map<Name, PckSecret>
    var index: PiidIndex.Managed
    var pending: map<Name, Wakeup>
    const pcsPause: PcsPause
    ghost var active: map<Name, Stage>

    constructor (clock: nat, wall: CacheBlob.UnixTime, platform: map<Name, Option<SecretData>>,
                 pck: map<Name, PckSecret>, index: PiidIndex.Managed)
      ensures fresh(pcsPause) && View() == State(clock, wall, platform, pck, index, None, map[], map[])
    {
      this.clock, this.wall, this.platform, this.pck, this.index := clock, wall, platform, pck, index;
      this.pending, this.active := map[], map[];
      this.pcsPause := new PcsPause();
    }

    ghost function View(): State
      reads this, pcsPause
    {
      State(clock, wall, platform, pck, index, pcsPause.until, pending, active)
    }

    /** `fetch_pck_certs` and the verification of its answer. */
    method FetchPckCerts(sha: Digest, k: Name, script: Script) returns (r: Result<Certs, Failure>)
      requires k in active && active[k].Admitted? && PossibleScript(script)
      modifies this`active
      ensures k in active && Play(sha, old(View()), k, script) == Play(sha, View(), k, script)
      ensures r.Ok? ==> script.certs == Usable(r.value)
      ensures r.Ok? ==> active == old(active)[k := Certified(old(active[k].request), r.value)]
      ensures r.Err? ==> !script.certs.Usable? && Fails(sha, View(), k, script, r.error)
    {
      ghost var request := active[k].request;
      SendCertsPlays(sha, View(), k, script);
      active := active[k := AwaitingCerts(request)];
      if !script.certs.Usable? {
        CertsFail(sha, View(), k, script);
        return Err(Classify(script.certs));
      }
      CertsPlay(sha, View(), k, script);
      active := active[k := Certified(request, script.certs.value)];
      return Ok(script.certs.value);
    }

    /** `fetch_tcb_info` and the verification of its answer. */
    method FetchTcbInfo(sha: Digest, k: Name, script: Script, request: Request, certs: Certs)
      returns (r: Result<Str, Failure>)
      requires k in active && active[k] == Certified(request, certs) && PossibleScript(script)
      modifies this`active
      ensures active == old(active)[k := AwaitingTcb(request, certs)]
      ensures Play(sha, old(View()), k, script) == Play(sha, View(), k, script)
      ensures r.Ok? ==> script.tcbInfo == Usable(r.value)
      ensures r.Err? ==> !script.tcbInfo.Usable? && Fails(sha, View(), k, script, r.error)
    {
      SendTcbPlays(sha, View(), k, script);
      active := active[k := AwaitingTcb(request, certs)];
      if !script.tcbInfo.Usable? {
        TcbFails(sha, View(), k, script);
        return Err(Classify(script.tcbInfo));
      }
      return Ok(script.tcbInfo.value);
    }

    /** `build_cache_blob` with what the two requests brought. */
    method BuildBlob(sha: Digest, k: Name, script: Script, request: Request, certs: Certs, tcbInfo: Str)
      returns (r: Result<(seq<Byte>, U64), Failure>)
      requires k in active && active[k] == AwaitingTcb(request, certs) && PossibleScript(script)
      requires script.tcbInfo == Usable(tcbInfo)
      modifies this`active
      ensures k in active && Play(sha, old(View()), k, script) == Play(sha, View(), k, script)
      ensures r.Ok? ==> CacheBlob.WellFormed(r.value.0) && CacheBlob.Decoded(r.value.0).expiration == r.value.1
      ensures r.Ok? ==> Built(wall, request, certs, tcbInfo) ==
                        GoOn(Storing(request, CacheBlob.Decoded(r.value.0), certs.piid))
      ensures r.Ok? ==> active == old(active)[k := Storing(request, CacheBlob.Decoded(r.value.0), certs.piid)]
      ensures r.Err? ==> Fails(sha, View(), k, script, r.error)
    {
      TcbPlays(sha, View(), k, script);
      var built := BuildFor(wall, request, certs, tcbInfo);
      if built.Err? {
        return Err(OtherFailure);
      }
      ghost var stage := Storing(request, CacheBlob.Decoded(built.value.0), certs.piid);
      active := active[k := stage];
      return Ok(built.value);
    }

    /** The server-side apply of the -pck Secret. */
    method ApplyPckSecret(sha: Digest, k: Name, script: Script, fingerprint: seq<Byte>, cacheData: seq<Byte>,
                          expiration: U64)
      requires k in active && active[k].Storing? && PossibleScript(script)
      requires fingerprint == Fingerprint(sha, active[k].request)
      requires cacheData == CacheBlob.Encode(active[k].blob) && expiration == active[k].blob.expiration
      modifies this`active, this`pck
      ensures k in active && Play(sha, old(View()), k, script) == Play(sha, View(), k, script)
      ensures script.secretOk ==> active == old(active)[k := Indexing(old(active[k].piid))]
      ensures script.secretOk ==> PckName(k) in pck && pck[PckName(k)].data == Some(map[Certificate := cacheData])
      ensures !script.secretOk ==> pck == old(pck) && Fails(sha, View(), k, script, OtherFailure)
    {
      StorePlays(sha, View(), k, script);
      if script.secretOk {
        var annotations := map[FingerprintOf := fingerprint, ExpiresAt := Decimal(expiration)];
        var secret := PckSecret(Some(annotations), Some(map[Certificate := cacheData]));
        assert secret == PckSecretOf(sha, active[k].request, active[k].blob);
        pck := pck[PckName(k) := secret];
        active := active[k := Indexing(active[k].piid)];
      }
    }

    /** `patch_piid_index` */
    method ApplyPiidIndex(sha: Digest, k: Name, script: Script, piid: seq<Byte>)
      requires k in active && active[k] == Indexing(piid) && PossibleScript(script)
      modifies this`active, this`index
      ensures script.indexOk ==> Play(sha, old(View()), k, script) == End(View(), AwaitChange)
      ensures script.indexOk ==> index == PiidIndex.PatchPiidIndex(old(index), k, piid)
      ensures !script.indexOk ==> View() == old(View()) && Fails(sha, View(), k, script, OtherFailure)
    {
      IndexPlays(sha, View(), k, script);
      if script.indexOk {
        index := PiidIndex.PatchPiidIndex(index, k, piid);
        active := active - {k};
      }
    }

    /** `register_platform`: on success the Secret and the index are written; on failure the next
        step is the one that fails, and nothing after it has happened. */
    method RegisterPlatform(sha: Digest, k: Name, script: Script, request: Request, fingerprint: seq<Byte>)
      returns (failure: Option<Failure>)
      requires k in active && active[k] == Admitted(request) && PossibleScript(script)
      requires fingerprint == Fingerprint(sha, request)
      modifies this`active, this`pck, this`index
      ensures failure.None? ==> Play(sha, old(View()), k, script) == End(View(), AwaitChange)
      ensures failure.Some? ==> k in active && Fails(sha, View(), k, script, failure.value)
      ensures failure.Some? ==> Play(sha, old(View()), k, script) == Play(sha, View(), k, script)
    {
      var certs := FetchPckCerts(sha, k, script);
      if certs.Err? {
        return Some(certs.error);
      }
      var tcbInfo := FetchTcbInfo(sha, k, script, request, certs.value);
      if tcbInfo.Err? {
        return Some(tcbInfo.error);
      }
      var blob := BuildBlob(sha, k, script, request, certs.value, tcbInfo.value);
      if blob.Err? {
        return Some(blob.error);
      }
      ApplyPckSecret(sha, k, script, fingerprint, blob.value.0, blob.value.1);
      if !script.secretOk {
        return Some(OtherFailure);
      }
      ApplyPiidIndex(sha, k, script, certs.value.piid);
      if !script.indexOk {
        return Some(OtherFailure);
      }
      return None;
    }

    /** The controller takes the reconcile of `k` off and queues what it asked for. */
    method Conclude(k: Name, action: Action)
      modifies this`active, this`pending
      ensures View() == Concluded(old(View()), k, action)
    {
      active := active - {k};
      if action.Requeue? {
        pending := Schedule(pending, k, Wakeup(clock + action.delay, true));
      }
    }

    method LookupAndCheck(sha: Digest, k: Name, request: Request, fingerprint: seq<Byte>, readable: bool)
      returns (valid: Result<bool, CheckError>)
      requires fingerprint == Fingerprint(sha, request)
      ensures valid == CheckResult(sha, View(), k, request, readable)
    {
      var found := if !readable then ReadFailed else if PckName(k) in pck then Found(pck[PckName(k)]) else Missing;
      assert found == LookupPck(View(), k, readable);
      valid := CheckPckSecret(found, fingerprint, wall);
    }

    /** The first part: skip, put off, or go on. */
    method CheckStage(sha: Digest, k: Name, script: Script, request: Request, fingerprint: seq<Byte>)
      returns (done: Option<Action>)
      requires k in active && active[k] == Checking(request) && PossibleScript(script)
      requires fingerprint == Fingerprint(sha, request)
      modifies this`active, this`pending
      ensures done.Some? ==> Play(sha, old(View()), k, script) == End(View(), done.value)
      ensures done.None? ==> View() == WithStage(old(View()), k, Deciding(request))
      ensures done.None? ==> Play(sha, old(View()), k, script) == Play(sha, View(), k, script)
    {
      CheckPlays(sha, View(), k, script);
      var valid := LookupAndCheck(sha, k, request, fingerprint, script.readable);
      if valid.Err? {
        Conclude(k, Requeue(WATCH_ERROR_BACKOFF));
        return Some(Requeue(WATCH_ERROR_BACKOFF));
      }
      if valid.value {
        Conclude(k, AwaitChange);
        return Some(AwaitChange);
      }
      active := active[k := Deciding(request)];
      return None;
    }

    /** The look at the shared pause. */
    method GateStage(sha: Digest, k: Name, script: Script, request: Request) returns (done: Option<Action>)
      requires k in active && active[k] == Deciding(request) && PossibleScript(script)
      modifies this`active, this`pending
      ensures done.Some? ==> Play(sha, old(View()), k, script) == End(View(), done.value)
      ensures done.None? ==> View() == WithStage(old(View()), k, Admitted(request))
      ensures done.None? ==> Play(sha, old(View()), k, script) == Play(sha, View(), k, script)
    {
      GatePlays(sha, View(), k, script);
      var remaining := pcsPause.Remaining(clock);
      if remaining.Some? {
        Conclude(k, Requeue(remaining.value));
        return Some(Requeue(remaining.value));
      }
      active := active[k := Admitted(request)];
      return None;
    }

    /** The error arm of `process_platform_secret` with `registration_error_policy`. */
    method HandleFailure(sha: Digest, k: Name, script: Script, failure: Failure) returns (action: Action)
      requires k in active && PossibleScript(script) && Fails(sha, View(), k, script, failure)
      modifies this`active, this`pending, pcsPause
      ensures Play(sha, old(View()), k, script) == End(View(), action)
    {
      FailurePlays(sha, View(), k, script, failure);
      match failure {
        case RateLimited(seconds) =>
          pcsPause.Pause(clock, seconds * SECOND);
          action := Requeue(seconds * SECOND);
        case Rejected =>
          action := AwaitChange;
        case OtherFailure =>
          action := Requeue(REGISTRATION_RETRY_DELAY);
      }
      Conclude(k, action);
    }

    /** `process_platform_secret` after its input is validated. */
    method Reconcile(sha: Digest, k: Name, script: Script, request: Request, fingerprint: seq<Byte>)
      returns (action: Action)
      requires k in active && active[k] == Checking(request) && PossibleScript(script)
      requires fingerprint == Fingerprint(sha, request)
      modifies this`active, this`pck, this`index, this`pending, pcsPause
      ensures Play(sha, old(View()), k, script) == End(View(), action)
    {
      var done := CheckStage(sha, k, script, request, fingerprint);
      if done.Some? {
        return done.value;
      }
      done := GateStage(sha, k, script, request);
      if done.Some? {
        return done.value;
      }
      var failure := RegisterPlatform(sha, k, script, request, fingerprint);
      if failure.None? {
        return AwaitChange;
      }
      action := HandleFailure(sha, k, script, failure.value);
    }

    /** The start of a reconcile: the queued wake-up is used up and the data validated. */
    method Start(sha: Digest, k: Name) returns (request: Option<Request>)
      requires Enabled(View(), Begin(k))
      modifies this`active, this`pending
      ensures View() == Step(sha, old(View()), Begin(k))
      ensures if request.None? then k !in active else k in active && active[k] == Checking(request.value)
    {
      BeginSteps(sha, View(), k);
      pending := pending - {k};
      if k !in platform || platform[k].None? {
        return None;
      }
      var prepared := PrepareRegistration(k, platform[k].value);
      if prepared.Err? {
        return None;
      }
      active := active[k := Checking(prepared.value)];
      return Some(prepared.value);
    }

    /** The controller runs `process_platform_secret` for `k` and queues what it asks for. Without
        interference, and for whatever answers it gets, it leaves the state and asks for the action
        that the machine reaches with those answers. */
    method ProcessPlatformSecret(sha: Digest, k: Name, script: Script) returns (action: Action)
      requires Enabled(View(), Begin(k)) && PossibleScript(script)
      modifies this, pcsPause
      ensures End(View(), action) == Processed(sha, old(View()), k, script)
    {
      var request := Start(sha, k);
      if request.None? {
        return AwaitChange;
      }
      var fingerprint := RegistrationFingerprint(sha, request.value);
      action := Reconcile(sha, k, script, request.value, fingerprint);
    }
  }
}
