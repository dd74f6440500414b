/** The skip decision as a cache: it agrees with what the last registration stored. */
module RegistrarCache {
  import opened Bytes
  import opened Results
  import opened Text
  import opened PlatformData
  import opened Registrar
  import CacheBlob

  // ---------- the validity check ----------

  /** A Secret was read, and it records this fingerprint. */
  predicate Records(found: Lookup, fingerprint: seq<Byte>) {
    && found.Found? && found.secret.annotations.Some?
    && FingerprintOf in found.secret.annotations.value
    && found.secret.annotations.value[FingerprintOf] == fingerprint
  }

  /** The text is decimal, of a number below 2^64 that is greater than `wall`. */
  ghost predicate SaysLaterThan(text: seq<Byte>, wall: CacheBlob.UnixTime) {
    exists plus: bool, zeros: nat, n: U64 :: WrittenU64(text, plus, zeros, n) && wall < n
  }

  lemma LaterIsParsed(text: seq<Byte>, wall: CacheBlob.UnixTime)
    ensures SaysLaterThan(text, wall) <==> ParseU64(text).Some? && wall < ParseU64(text).value
  {
    if SaysLaterThan(text, wall) {
      var plus: bool, zeros: nat, n: U64 :| WrittenU64(text, plus, zeros, n) && wall < n;
      WrittenParses(text, plus, zeros, n);
    }
    if ParseU64(text).Some? {
      ParsedWasWritten(text);
    }
  }

  /** The Secret carries an expiration later than `wall`, in decimal, and a cache blob. */
  ghost predicate UsableAt(secret: PckSecret, wall: CacheBlob.UnixTime) {
    && secret.annotations.Some? && ExpiresAt in secret.annotations.value
    && SaysLaterThan(secret.annotations.value[ExpiresAt], wall)
    && secret.data.Some? && Certificate in secret.data.value
    && exists blob: CacheBlob.Blob :: CacheBlob.Encode(blob) == secret.data.value[Certificate]
  }

  /** The check in full, of whatever was read: it fails if and only if the read failed, or the
      fingerprints match on a clock before 1970; it finds the Secret valid if and only if the
      fingerprints match, the expiration is later than the clock and the blob is one. */
  lemma CheckExact(found: Lookup, fingerprint: seq<Byte>, wall: CacheBlob.UnixTime)
    ensures var r := PckSecretIsValid(found, fingerprint, wall);
            && (r.Err? <==> found.ReadFailed? || (Records(found, fingerprint) && wall < 0))
            && (r == Ok(true) <==> Records(found, fingerprint) && wall >= 0 && UsableAt(found.secret, wall))
  {
    if Records(found, fingerprint) && ExpiresAt in found.secret.annotations.value {
      LaterIsParsed(found.secret.annotations.value[ExpiresAt], wall);
    }
  }

  /** A read that fails is retried after ten seconds, nothing being written or sent. */
  lemma FailedReadIsRetried(sha: Digest, s: State, k: Name)
    requires Enabled(s, At(k, Check(false)))
    ensures var t := Step(sha, s, At(k, Check(false)));
            && k !in t.active && t.pck == s.pck && t.index == s.index && t.pause == s.pause
            && k in t.pending && t.pending[k].at <= s.clock + 10_000_000_000
            && (k !in s.pending ==> t.pending[k].at == s.clock + 10_000_000_000)
  {
    CheckExact(ReadFailed, Fingerprint(sha, s.active[k].request), s.wall);
  }

  /** On a Secret that a registration applied, the check comes down to three comparisons. */
  lemma CheckOfApplied(sha: Digest, request: Request, blob: CacheBlob.Blob, current: Request, wall: CacheBlob.UnixTime)
    ensures PckSecretIsValid(Found(PckSecretOf(sha, request, blob)), Fingerprint(sha, current), wall) ==
            if Fingerprint(sha, request) != Fingerprint(sha, current) then Ok(false)
            else if wall < 0 then Err(ClockError)
            else Ok(wall < blob.expiration)
  {
    var secret := PckSecretOf(sha, request, blob);
    ParseU64OfDecimal(blob.expiration);
    assert CacheBlob.WellFormed(CacheBlob.Encode(blob));
    assert secret.annotations.value[FingerprintOf] == Fingerprint(sha, request);
    assert secret.annotations.value[ExpiresAt] == Decimal(blob.expiration);
    assert secret.data.value[Certificate] == CacheBlob.Encode(blob);
  }

  /** What a skipped reconcile relies on: the stored blob parses, has not expired, says the same
      expiration as the annotation, and carries the CPU SVN of the current request. */
  ghost predicate StoredFor(secret: PckSecret, request: Request, wall: CacheBlob.UnixTime) {
    && secret.annotations.Some? && ExpiresAt in secret.annotations.value
    && secret.data.Some? && Certificate in secret.data.value
    && CacheBlob.WellFormed(secret.data.value[Certificate])
    && var blob := CacheBlob.Decoded(secret.data.value[Certificate]);
    && wall < blob.expiration
    && ParseU64(secret.annotations.value[ExpiresAt]) == Some(blob.expiration)
    && blob.cpuSvn == request.cpuSvn
  }

  ghost predicate Skips(sha: Digest, s: State, e: Event)
    requires Enabled(s, e)
  {
    e.At? && e.op.Check? && CheckResult(sha, s, e.k, s.active[e.k].request, e.op.readable) == Ok(true)
  }

  /** An applied Secret that passes the check is right for the request checked, unless the two
      requests are a collision of the digest. */
  lemma ValidIsStoredFor(sha: Digest, secret: PckSecret, request: Request, blob: CacheBlob.Blob,
                         current: Request, wall: CacheBlob.UnixTime)
    requires AppliedFor(sha, secret, request, blob)
    requires PckSecretIsValid(Found(secret), Fingerprint(sha, current), wall) == Ok(true)
    ensures StoredFor(secret, current, wall) || Collide(sha, request, current)
  {
    CheckOfApplied(sha, request, blob, current, wall);
    FingerprintIdentifies(sha, request, current);
    ParseU64OfDecimal(blob.expiration);
    var cert := CacheBlob.Encode(blob);
    assert CacheBlob.WellFormed(cert);
    CacheBlob.EncodeInjective(blob, CacheBlob.Decoded(cert));
  }

  /** The current request and the one that the stored Secret was made for are a collision of the
      digest: different, with the same fingerprint. */
  ghost predicate StoredCollides(sha: Digest, secret: PckSecret, current: Request) {
    exists request, blob :: AppliedFor(sha, secret, request, blob) && Collide(sha, request, current)
  }

  /** In every run of the registrar, a reconcile that skips Intel PCS is right to do so, a collision
      of the digest with the stored request apart. */
  lemma SkipIsSound(sha: Digest, s0: State, es: seq<Event>, k: Name)
    requires Initial(sha, s0) && Legal(sha, s0, es)
    requires Enabled(Run(sha, s0, es), At(k, Check(true)))
    requires Skips(sha, Run(sha, s0, es), At(k, Check(true)))
    ensures var s := Run(sha, s0, es);
            && PckName(k) in s.pck
            && (StoredFor(s.pck[PckName(k)], s.active[k].request, s.wall) ||
                StoredCollides(sha, s.pck[PckName(k)], s.active[k].request))
  {
    RunKeepsInvariant(sha, s0, es);
    var s := Run(sha, s0, es);
    var request, blob :| AppliedFor(sha, s.pck[PckName(k)], request, blob);
    ValidIsStoredFor(sha, s.pck[PckName(k)], request, blob, s.active[k].request, s.wall);
  }

  // ---------- the converse ----------

  predicate Stores(e: Event, k: Name) {
    e.At? && e.k == k && e.op.WriteSecret? && e.op.secretOk
  }

  lemma PckNameInjective(a: Name, b: Name)
    requires PckName(a) == PckName(b)
    ensures a == b
  {
    assert PckName(a)[..|PckName(a)| - 4] == a && PckName(b)[..|PckName(b)| - 4] == b;
  }

  lemma StepKeepsSecret(sha: Digest, s: State, e: Event, k: Name)
    requires Enabled(s, e) && !Stores(e, k) && PckName(k) in s.pck
    ensures PckName(k) in Step(sha, s, e).pck && Step(sha, s, e).pck[PckName(k)] == s.pck[PckName(k)]
  {
    if e.At? && e.op.WriteSecret? && PckName(e.k) == PckName(k) {
      PckNameInjective(e.k, k);
    }
  }

  lemma {:induction false} RunKeepsSecret(sha: Digest, s: State, es: seq<Event>, k: Name)
    requires Legal(sha, s, es) && PckName(k) in s.pck
    requires forall e :: e in es ==> !Stores(e, k)
    ensures PckName(k) in Run(sha, s, es).pck && Run(sha, s, es).pck[PckName(k)] == s.pck[PckName(k)]
    decreases |es|
  {
    if es == [] {
    } else {
      assert es[0] in es;
      StepKeepsSecret(sha, s, es[0], k);
      RunKeepsSecret(sha, Step(sha, s, es[0]), es[1..], k);
    }
  }

  /** A platform has a Secret exactly when it had one or a Secret write of its own went through. */
  lemma {:induction false} SecretIffStored(sha: Digest, s: State, es: seq<Event>, k: Name)
    requires Legal(sha, s, es)
    ensures PckName(k) in Run(sha, s, es).pck <==> PckName(k) in s.pck || At(k, WriteSecret(true)) in es
    decreases |es|
  {
    if es == [] {
    } else {
      StepStores(sha, s, es[0], k);
      SecretIffStored(sha, Step(sha, s, es[0]), es[1..], k);
      assert es == [es[0]] + es[1..];
    }
  }

  lemma StepStores(sha: Digest, s: State, e: Event, k: Name)
    requires Enabled(s, e)
    ensures PckName(k) in Step(sha, s, e).pck <==> PckName(k) in s.pck || e == At(k, WriteSecret(true))
  {
    if e.At? && e.op.WriteSecret? && PckName(e.k) == PckName(k) {
      PckNameInjective(e.k, k);
    }
  }

  /** What the check says of a Secret stored for `request`: it covers `current` if that is the same
      request, or one the digest cannot tell from it. */
  ghost predicate Covers(sha: Digest, request: Request, current: Request) {
    current == request || Collide(sha, request, current)
  }

  /** After a registration has stored its Secret, and until the next one does, in every
      interleaving: the data it covers is skipped at every time before the expiration and at none
      after, and other data is never skipped. */
  lemma RegisteredIsSkippedUntilExpiry(sha: Digest, s: State, k: Name, es: seq<Event>, current: Request,
                                       wall: CacheBlob.UnixTime)
    requires Enabled(s, At(k, WriteSecret(true)))
    requires Legal(sha, Step(sha, s, At(k, WriteSecret(true))), es)
    requires forall e :: e in es ==> !Stores(e, k)
    ensures var t := Run(sha, Step(sha, s, At(k, WriteSecret(true))), es);
            var valid := PckSecretIsValid(LookupPck(t, k, true), Fingerprint(sha, current), wall);
            var covered := Covers(sha, s.active[k].request, current);
            && (wall >= 0 ==> valid == Ok(covered && wall < s.active[k].blob.expiration))
            && (wall < 0 ==> valid == if covered then Err(ClockError) else Ok(false))
  {
    var stage := s.active[k];
    var stored := Step(sha, s, At(k, WriteSecret(true)));
    assert stored.pck[PckName(k)] == PckSecretOf(sha, stage.request, stage.blob);
    RunKeepsSecret(sha, stored, es, k);
    CheckOfApplied(sha, stage.request, stage.blob, current, wall);
    FingerprintIdentifies(sha, stage.request, current);
  }

  /** The blob to be stored expires one year after the clock reading that was taken for it. */
  lemma StoredExpiration(sha: Digest, s: State, k: Name, tcbInfo: Str)
    requires Enabled(s, At(k, TcbAnswer(Usable(tcbInfo))))
    ensures var t := Step(sha, s, At(k, TcbAnswer(Usable(tcbInfo))));
            (k in t.active <==> s.wall >= 0 && FitsBlob(s.active[k].request, tcbInfo, s.active[k].certs)) &&
            (k in t.active ==> t.active[k].Storing? && t.active[k].blob.expiration == s.wall + 31_536_000 &&
                               t.active[k].blob.cpuSvn == s.active[k].request.cpuSvn)
  {
  }

  // ---------- a valid -pck Secret does not imply an index entry ----------

  /** A registration whose Secret is stored and whose index patch then fails. */
  ghost function StoredNotIndexed(sha: Digest, s: State, k: Name): State
    requires k in s.active && s.active[k].Storing?
  {
    Step(sha, Step(sha, s, At(k, WriteSecret(true))), At(k, WriteIndex(false)))
  }

  /** A reconcile whose Secret is valid skips, and changes neither Secrets nor index. */
  lemma ValidSkips(sha: Digest, s: State, k: Name)
    requires k in s.active && s.active[k].Checking?
    requires CheckResult(sha, s, k, s.active[k].request, true) == Ok(true)
    ensures Skips(sha, s, At(k, Check(true)))
    ensures var t := Step(sha, s, At(k, Check(true))); k !in t.active && t.index == s.index && t.pck == s.pck
  {
  }

  /** When the index patch fails after the Secret was stored, the retry of the same data finds the
      Secret valid and skips: whether the platform has an index entry is then as it was before. */
  lemma FailedIndexIsNotRepaired(sha: Digest, s: State, k: Name, es: seq<Event>)
    requires k in s.active && s.active[k].Storing?
    requires Legal(sha, StoredNotIndexed(sha, s, k), es) && forall e :: e in es ==> !Stores(e, k)
    ensures StoredNotIndexed(sha, s, k).index == s.index
    ensures var u := Run(sha, StoredNotIndexed(sha, s, k), es);
            k in u.active && u.active[k] == Checking(s.active[k].request) &&
            0 <= u.wall < s.active[k].blob.expiration ==>
              && Skips(sha, u, At(k, Check(true)))
              && k !in Step(sha, u, At(k, Check(true))).active
              && Step(sha, u, At(k, Check(true))).index == u.index
  {
    var u := Run(sha, StoredNotIndexed(sha, s, k), es);
    StillCovered(sha, s, k, es);
    if k in u.active && u.active[k] == Checking(s.active[k].request) && 0 <= u.wall < s.active[k].blob.expiration {
      ValidSkips(sha, u, k);
    }
  }

  lemma StillCovered(sha: Digest, s: State, k: Name, es: seq<Event>)
    requires k in s.active && s.active[k].Storing?
    requires Legal(sha, StoredNotIndexed(sha, s, k), es) && forall e :: e in es ==> !Stores(e, k)
    ensures var u := Run(sha, StoredNotIndexed(sha, s, k), es);
            0 <= u.wall < s.active[k].blob.expiration ==>
              CheckResult(sha, u, k, s.active[k].request, true) == Ok(true)
  {
    var failure := At(k, WriteIndex(false));
    var t := Step(sha, s, At(k, WriteSecret(true)));
    RunCons(sha, t, failure, es);
    var u := Run(sha, Step(sha, t, failure), es);
    RegisteredIsSkippedUntilExpiry(sha, s, k, [failure] + es, s.active[k].request, u.wall);
  }

  // ---------- names ----------

  /** The Secrets the registrar writes are never taken for platform data, and the three kinds of
      names never meet. */
  lemma WrittenNamesAreNotPlatforms(k: Name, data: SecretData)
    requires IsFixedLenHex(k, QE_ID_HEX_LEN)
    ensures PrepareRegistration(PckName(k), data) == Err(BadName)
    ensures PrepareRegistration(PIID_INDEX_NAME, data) == Err(BadName)
    ensures PckName(k) != PIID_INDEX_NAME
  {
  }

  /** In every run the Secrets stored are those of names accepted as platforms. */
  ghost predicate PckNamesSound(s: State) {
    forall n :: n in s.pck ==> exists k :: IsFixedLenHex(k, QE_ID_HEX_LEN) && n == PckName(k)
  }

  lemma {:induction false} OnlyPlatformSecretsAreWritten(sha: Digest, s: State, es: seq<Event>)
    requires Invariant(sha, s) && PckNamesSound(s) && Legal(sha, s, es)
    ensures PckNamesSound(Run(sha, s, es))
    ensures forall n, data :: n in Run(sha, s, es).pck ==> PrepareRegistration(n, data) == Err(BadName)
    decreases |es|
  {
    if es == [] {
      forall n, data | n in s.pck ensures PrepareRegistration(n, data) == Err(BadName) {
        var k :| IsFixedLenHex(k, QE_ID_HEX_LEN) && n == PckName(k);
        WrittenNamesAreNotPlatforms(k, data);
      }
    } else {
      var t := Step(sha, s, es[0]);
      StepKeepsInvariant(sha, s, es[0]);
      forall n | n in t.pck ensures exists k :: IsFixedLenHex(k, QE_ID_HEX_LEN) && n == PckName(k) {
        if n !in s.pck {
          assert StageSound(es[0].k, s.active[es[0].k]);
        }
      }
      OnlyPlatformSecretsAreWritten(sha, t, es[1..]);
    }
  }
}
