/** What one reconcile comes to, case by case and in numbers: an account of the whole that does not
    go through the steps of the state machine. */
module RegistrarOutcome {
  import opened Bytes
  import opened Results
  import opened Text
  import opened PlatformData
  import opened Pause
  import opened Registrar
  import opened RegistrarContext
  import opened RegistrarCache
  import CacheBlob
  import PiidIndex

  const TEN_SECONDS: nat := 10_000_000_000
  const FIVE_MINUTES: nat := 300_000_000_000

  /** The reconcile asks for `action`, and leaves Secrets, index and pause as they were. */
  ghost predicate EndsWith(s: State, end: End, action: Action) {
    && end.action == action
    && end.state.pck == s.pck && end.state.index == s.index && end.state.pause == s.pause
  }

  // ---------- up to the first request ----------

  function Stored(s: State, k: Name): Lookup {
    if PckName(k) in s.pck then Found(s.pck[PckName(k)]) else Missing
  }

  predicate Paused(s: State) {
    s.pause.Some? && s.pause.value > s.clock
  }

  /** When a reconcile ends before it sends anything, and how: a failed read and a clock before 1970
      are retried after ten seconds, a Secret that is right for the data ends it, a pause puts it
      off until the pause ends. In every other case it is admitted. */
  lemma BeforeRequests(sha: Digest, s: State, k: Name, script: Script)
    requires k in s.active && s.active[k].Checking? && PossibleScript(script)
    ensures var end := Play(sha, s, k, script);
            var request, found := s.active[k].request, Stored(s, k);
            var same := Records(found, Fingerprint(sha, request));
            && (!script.readable ==> EndsWith(s, end, Requeue(TEN_SECONDS)))
            && (script.readable && same && s.wall < 0 ==> EndsWith(s, end, Requeue(TEN_SECONDS)))
            && (script.readable && same && s.wall >= 0 && UsableAt(found.secret, s.wall) ==>
                  EndsWith(s, end, AwaitChange))
            && (script.readable && (!same || (s.wall >= 0 && !UsableAt(found.secret, s.wall))) ==>
                  if Paused(s) then EndsWith(s, end, Requeue(s.pause.value - s.clock))
                  else end == Play(sha, WithStage(s, k, Admitted(request)), k, script))
  {
    var request := s.active[k].request;
    var deciding := WithStage(s, k, Deciding(request));
    CheckPlays(sha, s, k, script);
    CheckExact(LookupPck(s, k, script.readable), Fingerprint(sha, request), s.wall);
    GatePlays(sha, deciding, k, script);
    WithStageTwice(s, k, Deciding(request), Admitted(request));
  }

  // ---------- a request that fails ----------

  function LaterOf(pause: Option<nat>, t: nat): nat {
    if pause.Some? && pause.value > t then pause.value else t
  }

  /** What follows an answer that is no use: a 429 extends the pause by the delay it asks for, and the
      platform is retried then; another 4xx waits for new data; anything else is retried after five
      minutes. Nothing is written. */
  ghost predicate AfterFailure<T>(s: State, end: End, a: Answer<T>) {
    && end.state.pck == s.pck && end.state.index == s.index
    && if a.HttpError? && a.status == 429 then
         var delay := ParseRetryAfter(a.retryAfter) * 1_000_000_000;
         end.action == Requeue(delay) && end.state.pause == Some(LaterOf(s.pause, s.clock + delay))
       else
         && end.state.pause == s.pause
         && end.action == if a.HttpError? && 400 <= a.status < 500 then AwaitChange else Requeue(FIVE_MINUTES)
  }

  lemma FailureEnds(sha: Digest, s: State, k: Name, script: Script, f: Failure)
    requires k in s.active && PossibleScript(script) && Fails(sha, s, k, script, f)
    ensures var end := Play(sha, s, k, script);
            && end.state.pck == s.pck && end.state.index == s.index
            && match f
               case RateLimited(n) =>
                 var delay := n * 1_000_000_000;
                 end.action == Requeue(delay) && end.state.pause == Some(LaterOf(s.pause, s.clock + delay))
               case Rejected => end.state.pause == s.pause && end.action == AwaitChange
               case OtherFailure => end.state.pause == s.pause && end.action == Requeue(FIVE_MINUTES)
  {
    FailurePlays(sha, s, k, script, f);
  }

  lemma FailureOf<T>(sha: Digest, s: State, k: Name, script: Script, a: Answer<T>)
    requires k in s.active && PossibleScript(script) && !a.Usable? && Fails(sha, s, k, script, Classify(a))
    ensures AfterFailure(s, Play(sha, s, k, script), a)
  {
    FailureEnds(sha, s, k, script, Classify(a));
  }

  lemma OtherFailureOf(sha: Digest, s: State, k: Name, script: Script)
    requires k in s.active && PossibleScript(script) && Fails(sha, s, k, script, OtherFailure)
    ensures EndsWith(s, Play(sha, s, k, script), Requeue(FIVE_MINUTES))
  {
    FailurePlays(sha, s, k, script, OtherFailure);
  }

  lemma FirstRequestFails(sha: Digest, s: State, k: Name, script: Script)
    requires k in s.active && s.active[k].Admitted? && PossibleScript(script) && !script.certs.Usable?
    ensures AfterFailure(s, Play(sha, s, k, script), script.certs)
  {
    var waiting := WithStage(s, k, AwaitingCerts(s.active[k].request));
    SendCertsPlays(sha, s, k, script);
    CertsFail(sha, waiting, k, script);
    FailureOf(sha, waiting, k, script, script.certs);
  }

  /** Where the registration stands once both requests have been sent. */
  lemma FirstRequestSucceeds(sha: Digest, s: State, k: Name, script: Script)
    requires k in s.active && s.active[k].Admitted? && PossibleScript(script) && script.certs.Usable?
    ensures var waiting := WithStage(s, k, AwaitingTcb(s.active[k].request, script.certs.value));
            Play(sha, s, k, script) == Play(sha, waiting, k, script)
  {
    var request, c := s.active[k].request, script.certs.value;
    var asked := WithStage(s, k, AwaitingCerts(request));
    var certified := WithStage(s, k, Certified(request, c));
    SendCertsPlays(sha, s, k, script);
    CertsPlay(sha, asked, k, script);
    WithStageTwice(s, k, AwaitingCerts(request), Certified(request, c));
    SendTcbPlays(sha, certified, k, script);
    WithStageTwice(s, k, Certified(request, c), AwaitingTcb(request, c));
  }

  lemma SecondRequestFails(sha: Digest, s: State, k: Name, script: Script)
    requires k in s.active && s.active[k].Admitted? && PossibleScript(script)
    requires script.certs.Usable? && !script.tcbInfo.Usable?
    ensures AfterFailure(s, Play(sha, s, k, script), script.tcbInfo)
  {
    var waiting := WithStage(s, k, AwaitingTcb(s.active[k].request, script.certs.value));
    FirstRequestSucceeds(sha, s, k, script);
    TcbFails(sha, waiting, k, script);
    FailureOf(sha, waiting, k, script, script.tcbInfo);
  }

  // ---------- both requests succeed ----------

  /** Each of the four texts is short enough for its 32-bit length. */
  predicate Fits(request: Request, c: Certs, tcbInfo: Str) {
    && |request.cpuSvn| < 0x1_0000_0000 && |tcbInfo| < 0x1_0000_0000
    && |c.certChain| < 0x1_0000_0000 && |c.pckCerts| < 0x1_0000_0000
  }

  /** The Secret records the request and an expiration one year after `wall`, and holds the blob of the
      request's CPU SVN and of what the two requests brought. */
  ghost predicate IsSecretOf(sha: Digest, secret: PckSecret, request: Request, c: Certs, tcbInfo: Str,
                             wall: CacheBlob.UnixTime)
    requires wall >= 0 && Fits(request, c, tcbInfo)
  {
    var blob := CacheBlob.Blob(expiration := wall + 31_536_000, cpuSvn := request.cpuSvn, tcbInfo := tcbInfo,
                               certChain := c.certChain, pckCerts := c.pckCerts);
    && secret.annotations == Some(map[FingerprintOf := Fingerprint(sha, request),
                                      ExpiresAt := Decimal(wall + 31_536_000)])
    && secret.data == Some(map[Certificate := CacheBlob.Encode(blob)])
  }

  lemma SecondRequestSucceeds(sha: Digest, s: State, k: Name, script: Script)
    requires k in s.active && s.active[k].AwaitingTcb? && PossibleScript(script) && script.tcbInfo.Usable?
    ensures var request, c, t := s.active[k].request, s.active[k].certs, script.tcbInfo.value;
            if s.wall < 0 || !Fits(request, c, t)
            then EndsWith(s, Play(sha, s, k, script), Requeue(FIVE_MINUTES))
            else var blob := CacheBlob.Blob(s.wall + 31_536_000, request.cpuSvn, t, c.certChain, c.pckCerts);
                 Play(sha, s, k, script) == Play(sha, WithStage(s, k, Storing(request, blob, c.piid)), k, script)
  {
    TcbPlays(sha, s, k, script);
    if s.wall < 0 || !Fits(s.active[k].request, s.active[k].certs, script.tcbInfo.value) {
      OtherFailureOf(sha, s, k, script);
    }
  }

  /** The registration reaches its Secret write with the blob of what it was given. */
  lemma BlobIsBuilt(sha: Digest, s: State, k: Name, script: Script)
    requires k in s.active && s.active[k].Admitted? && PossibleScript(script)
    requires script.certs.Usable? && script.tcbInfo.Usable?
    requires s.wall >= 0 && Fits(s.active[k].request, script.certs.value, script.tcbInfo.value)
    ensures var request, c, t := s.active[k].request, script.certs.value, script.tcbInfo.value;
            var blob := CacheBlob.Blob(s.wall + 31_536_000, request.cpuSvn, t, c.certChain, c.pckCerts);
            Play(sha, s, k, script) == Play(sha, WithStage(s, k, Storing(request, blob, c.piid)), k, script)
  {
    var request, c, t := s.active[k].request, script.certs.value, script.tcbInfo.value;
    var blob := CacheBlob.Blob(s.wall + 31_536_000, request.cpuSvn, t, c.certChain, c.pckCerts);
    FirstRequestSucceeds(sha, s, k, script);
    SecondRequestSucceeds(sha, WithStage(s, k, AwaitingTcb(request, c)), k, script);
    WithStageTwice(s, k, AwaitingTcb(request, c), Storing(request, blob, c.piid));
  }

  lemma BlobIsNotBuilt(sha: Digest, s: State, k: Name, script: Script)
    requires k in s.active && s.active[k].Admitted? && PossibleScript(script)
    requires script.certs.Usable? && script.tcbInfo.Usable?
    requires s.wall < 0 || !Fits(s.active[k].request, script.certs.value, script.tcbInfo.value)
    ensures EndsWith(s, Play(sha, s, k, script), Requeue(FIVE_MINUTES))
  {
    FirstRequestSucceeds(sha, s, k, script);
    SecondRequestSucceeds(sha, WithStage(s, k, AwaitingTcb(s.active[k].request, script.certs.value)), k, script);
  }

  /** With both answers usable and the Secret applied, what is stored is right in every part, other
      Secrets stay, and the index gets this platform's PIID if its patch goes through; if it does not,
      the platform is retried after five minutes. */
  lemma RegistrationStores(sha: Digest, s: State, k: Name, script: Script)
    requires k in s.active && s.active[k].Admitted? && PossibleScript(script)
    requires script.certs.Usable? && script.tcbInfo.Usable? && script.secretOk
    requires s.wall >= 0 && Fits(s.active[k].request, script.certs.value, script.tcbInfo.value)
    ensures var end := Play(sha, s, k, script);
            var name, c, t := k + Ascii("-pck"), script.certs.value, script.tcbInfo.value;
            && name in end.state.pck && end.state.pck == s.pck[name := end.state.pck[name]]
            && IsSecretOf(sha, end.state.pck[name], s.active[k].request, c, t, s.wall)
            && end.state.pause == s.pause
            && end.action == (if script.indexOk then AwaitChange else Requeue(FIVE_MINUTES))
            && (!script.indexOk ==> end.state.index == s.index)
            && (script.indexOk && PiidIndex.OwnKeysOnly(s.index) ==>
                  end.state.index.data == s.index.data[k := c.piid])
  {
    var request, c, t := s.active[k].request, script.certs.value, script.tcbInfo.value;
    var blob := CacheBlob.Blob(s.wall + 31_536_000, request.cpuSvn, t, c.certChain, c.pckCerts);
    BlobIsBuilt(sha, s, k, script);
    NamesAreText(k);
    StoredAndIndexed(sha, WithStage(s, k, Storing(request, blob, c.piid)), k, script);
  }

  lemma StoredAndIndexed(sha: Digest, s: State, k: Name, script: Script)
    requires k in s.active && s.active[k].Storing? && PossibleScript(script) && script.secretOk
    ensures var end, stage := Play(sha, s, k, script), s.active[k];
            && end.state.pck == s.pck[PckName(k) := PckSecretOf(sha, stage.request, stage.blob)]
            && end.state.pause == s.pause
            && end.action == (if script.indexOk then AwaitChange else Requeue(FIVE_MINUTES))
            && (!script.indexOk ==> end.state.index == s.index)
            && (script.indexOk && PiidIndex.OwnKeysOnly(s.index) ==>
                  end.state.index.data == s.index.data[k := stage.piid])
  {
    var stage := s.active[k];
    var stored := WithStage(s, k, Indexing(stage.piid)).(
                    pck := s.pck[PckName(k) := PckSecretOf(sha, stage.request, stage.blob)]);
    StorePlays(sha, s, k, script);
    IndexPlays(sha, stored, k, script);
    if script.indexOk {
      if PiidIndex.OwnKeysOnly(s.index) {
        PiidIndex.PatchTouchesOneKey(s.index, k, stage.piid);
      }
    } else {
      OtherFailureOf(sha, stored, k, script);
    }
  }

  /** Otherwise nothing is written and the platform is retried after five minutes: on a clock before
      1970, for a text that is too long, and when the apply of the Secret fails. */
  lemma NothingIsStored(sha: Digest, s: State, k: Name, script: Script)
    requires k in s.active && s.active[k].Admitted? && PossibleScript(script)
    requires script.certs.Usable? && script.tcbInfo.Usable?
    requires s.wall < 0 || !Fits(s.active[k].request, script.certs.value, script.tcbInfo.value) || !script.secretOk
    ensures EndsWith(s, Play(sha, s, k, script), Requeue(FIVE_MINUTES))
  {
    var request, c, t := s.active[k].request, script.certs.value, script.tcbInfo.value;
    if s.wall < 0 || !Fits(request, c, t) {
      BlobIsNotBuilt(sha, s, k, script);
    } else {
      BlobIsBuilt(sha, s, k, script);
      var blob := CacheBlob.Blob(s.wall + 31_536_000, request.cpuSvn, t, c.certChain, c.pckCerts);
      var storing := WithStage(s, k, Storing(request, blob, c.piid));
      StorePlays(sha, storing, k, script);
      OtherFailureOf(sha, storing, k, script);
    }
  }

  /** The names of the Secrets and of the field managers. */
  lemma NamesAreText(k: Name)
    ensures PckName(k) == k + Ascii("-pck")
    ensures PIID_INDEX_NAME == Ascii("piid-index")
    ensures PiidIndex.RegistrarManager(k) == Ascii("pck-cert-tool/") + k
  {
    assert Ascii("-pck") == PCK_SUFFIX;
    assert Ascii("pck-cert-tool/") == PiidIndex.FIELD_MANAGER_PREFIX;
  }
}
