/** When a platform is retried, and when nothing more is sent for it. */
module RegistrarWakeups {
  import opened Results
  import opened PlatformData
  import opened Registrar
  import RegistrarCache

  // ---------- how a reconcile ends ----------

  predicate IsRejection<T>(a: Answer<T>) {
    a.HttpError? && 400 <= a.status < 500 && a.status != 429
  }

  /** The step ends the reconcile for good: the stored Secret is valid, the registration is
      complete, or Intel PCS rejected the request itself. */
  ghost predicate Settles(sha: Digest, s: State, k: Name, op: Op)
    requires Enabled(s, At(k, op))
  {
    || RegistrarCache.Skips(sha, s, At(k, op))
    || (op.WriteIndex? && op.indexOk)
    || (op.CertsAnswer? && IsRejection(op.certs))
    || (op.TcbAnswer? && IsRejection(op.tcbInfo))
  }

  /** The delay after which a reconcile that did not settle is tried again. */
  function RetryDelay(s: State, stage: Stage, op: Op): nat
    requires OpEnabled(stage, op)
  {
    match op
    case Check(_) => 10_000_000_000
    case Gate => if s.pause.Some? && s.pause.value > s.clock then s.pause.value - s.clock else 0
    case RecordPause => stage.seconds * 1_000_000_000
    case _ => 300_000_000_000
  }

  /** The earlier of the wake-up a platform already has and the time `at`. */
  function Earlier(s: State, k: Name, at: nat): nat {
    if k in s.pending && s.pending[k].at < at then s.pending[k].at else at
  }

  /** Every reconcile that ends either settles, leaving the queue as it is, or leaves a wake-up
      pending: after exactly its retry delay, unless an earlier one is. */
  lemma EndIsSettledOrRetried(sha: Digest, s: State, k: Name, op: Op)
    requires Enabled(s, At(k, op)) && k !in Step(sha, s, At(k, op)).active
    ensures k !in s.pending ==> (Settles(sha, s, k, op) <==> k !in Step(sha, s, At(k, op)).pending)
    ensures Settles(sha, s, k, op) ==> Step(sha, s, At(k, op)).pending == s.pending
    ensures !Settles(sha, s, k, op) ==>
              var t := Step(sha, s, At(k, op));
              k in t.pending && t.pending[k].at == Earlier(s, k, s.clock + RetryDelay(s, s.active[k], op))
  {
  }

  /** A platform whose data is invalid is settled at once. */
  lemma InvalidDataSettles(sha: Digest, s: State, k: Name)
    requires Enabled(s, Begin(k))
    ensures var t := Step(sha, s, Begin(k));
            && k !in t.pending
            && (k in t.active <==>
                k in s.platform && s.platform[k].Some? && PrepareRegistration(k, s.platform[k].value).Ok?)
  {
  }

  /** A watch event replaces the data a reconcile works on, and wakes the platform at once. */
  lemma WatchedDataIsUsed(sha: Digest, s: State, k: Name, data: Option<SecretData>)
    ensures var t := Step(sha, s, Watch(k, data));
            t.platform == s.platform[k := data] && k in t.pending && t.pending[k].at == Earlier(s, k, s.clock)
  {
  }

  /** Of a platform that is deleted no reconcile gets anywhere. */
  lemma DeletedIsDropped(sha: Digest, s: State, k: Name)
    requires Enabled(Step(sha, s, Delete(k)), Begin(k))
    ensures k !in Step(sha, Step(sha, s, Delete(k)), Begin(k)).active
  {
    InvalidDataSettles(sha, Step(sha, s, Delete(k)), k);
  }

  predicate IsBegin(e: Event, k: Name) {
    e.Begin? && e.k == k
  }

  lemma StepKeepsWakeup(sha: Digest, s: State, e: Event, k: Name)
    requires Enabled(s, e) && k in s.pending && !IsBegin(e, k)
    ensures k in Step(sha, s, e).pending && Step(sha, s, e).pending[k].at <= s.pending[k].at
  {
  }

  /** A wake-up stays until the reconcile it asks for begins. */
  lemma {:induction false} WakeupPersists(sha: Digest, s: State, es: seq<Event>, k: Name)
    requires Legal(sha, s, es) && k in s.pending
    requires forall e :: e in es ==> !IsBegin(e, k)
    ensures k in Run(sha, s, es).pending && Run(sha, s, es).pending[k].at <= s.pending[k].at
    decreases |es|
  {
    if es == [] {
    } else {
      assert es[0] in es;
      StepKeepsWakeup(sha, s, es[0], k);
      WakeupPersists(sha, Step(sha, s, es[0]), es[1..], k);
    }
  }

  // ---------- nothing is sent without a cause ----------

  predicate IsWatch(e: Event, k: Name) {
    e.Watch? && e.k == k
  }

  predicate IsAt(e: Event, k: Name) {
    e.At? && e.k == k
  }

  predicate Quiet(s: State, k: Name) {
    k !in s.active && k !in s.pending
  }

  lemma StepStaysQuiet(sha: Digest, s: State, e: Event, k: Name)
    requires Enabled(s, e) && Quiet(s, k) && !IsWatch(e, k)
    ensures Quiet(Step(sha, s, e), k) && !IsAt(e, k) && !IsBegin(e, k)
  {
  }

  /** Once a platform is settled, nothing is read, sent or written for it until a watch event. */
  lemma {:induction false} QuietUntilWatched(sha: Digest, s: State, es: seq<Event>, k: Name)
    requires Legal(sha, s, es) && Quiet(s, k)
    requires forall e :: e in es ==> !IsWatch(e, k)
    ensures Quiet(Run(sha, s, es), k) && forall e :: e in es ==> !IsAt(e, k) && !IsBegin(e, k)
    decreases |es|
  {
    if es == [] {
    } else {
      assert es[0] in es;
      StepStaysQuiet(sha, s, es[0], k);
      QuietUntilWatched(sha, Step(sha, s, es[0]), es[1..], k);
      assert es == [es[0]] + es[1..];
    }
  }

  /** After Intel PCS rejected a platform's request, nothing more is sent for it until its data
      changes, in every interleaving. */
  lemma RejectedIsNotResent(sha: Digest, s: State, k: Name, op: Op, es: seq<Event>)
    requires Enabled(s, At(k, op)) && k !in s.pending
    requires (op.CertsAnswer? && IsRejection(op.certs)) || (op.TcbAnswer? && IsRejection(op.tcbInfo))
    requires Legal(sha, Step(sha, s, At(k, op)), es)
    requires forall e :: e in es ==> !IsWatch(e, k)
    ensures forall e :: e in es ==> !IsAt(e, k) && !IsBegin(e, k)
  {
    QuietUntilWatched(sha, Step(sha, s, At(k, op)), es, k);
  }

  // ---------- counting ----------

  function CountWatches(es: seq<Event>, k: Name): nat {
    if es == [] then 0 else (if IsWatch(es[0], k) then 1 else 0) + CountWatches(es[1..], k)
  }

  predicate FiresTimer(s: State, e: Event, k: Name) {
    IsBegin(e, k) && k in s.pending && s.pending[k].fromTimer
  }

  ghost function CountTimers(sha: Digest, s: State, es: seq<Event>, k: Name): nat
    requires Legal(sha, s, es)
    decreases |es|
  {
    if es == [] then 0
    else (if FiresTimer(s, es[0], k) then 1 else 0) + CountTimers(sha, Step(sha, s, es[0]), es[1..], k)
  }

  predicate SendsFirst(e: Event, k: Name) {
    IsAt(e, k) && e.op.SendCerts?
  }

  predicate SendsSecond(e: Event, k: Name) {
    IsAt(e, k) && e.op.SendTcb?
  }

  function CountFirst(es: seq<Event>, k: Name): nat {
    if es == [] then 0 else (if SendsFirst(es[0], k) then 1 else 0) + CountFirst(es[1..], k)
  }

  function CountSecond(es: seq<Event>, k: Name): nat {
    if es == [] then 0 else (if SendsSecond(es[0], k) then 1 else 0) + CountSecond(es[1..], k)
  }

  predicate BeforeFirst(stage: Stage) {
    stage.Checking? || stage.Deciding? || stage.Admitted?
  }

  predicate BetweenRequests(stage: Stage) {
    stage.AwaitingCerts? || stage.Certified?
  }

  /** Registrations that are already paid for: a queued watch event, a reconcile under way. */
  function FirstCredit(s: State, k: Name): nat {
    (if k in s.pending && !s.pending[k].fromTimer then 1 else 0) +
    (if k in s.active && BeforeFirst(s.active[k]) then 1 else 0)
  }

  function SecondCredit(s: State, k: Name): nat {
    if k in s.active && BetweenRequests(s.active[k]) then 1 else 0
  }

  lemma AdvanceCredit(sha: Digest, s: State, k: Name, stage: Stage, op: Op)
    requires OpEnabled(stage, op)
    ensures op.SendCerts? ==> BeforeFirst(stage)
    ensures op.SendTcb? ==> BetweenRequests(stage)
    ensures Advance(sha, s, k, stage, op).GoOn? ==>
              var next := Advance(sha, s, k, stage, op).stage;
              && (BeforeFirst(next) ==> BeforeFirst(stage) && !op.SendCerts?)
              && (BetweenRequests(next) ==> op.SendCerts? || (BetweenRequests(stage) && !op.SendTcb?))
  {
  }

  lemma StepCredit(sha: Digest, s: State, e: Event, k: Name)
    requires Enabled(s, e)
    ensures (if SendsFirst(e, k) then 1 else 0) + FirstCredit(Step(sha, s, e), k) <=
            FirstCredit(s, k) + (if IsWatch(e, k) then 1 else 0) + (if FiresTimer(s, e, k) then 1 else 0)
    ensures (if SendsSecond(e, k) then 1 else 0) + SecondCredit(Step(sha, s, e), k) <=
            SecondCredit(s, k) + (if SendsFirst(e, k) then 1 else 0)
  {
    if e.At? {
      AdvanceCredit(sha, s, e.k, s.active[e.k], e.op);
    }
  }

  lemma {:induction false} RunCredit(sha: Digest, s: State, es: seq<Event>, k: Name)
    requires Legal(sha, s, es)
    ensures CountFirst(es, k) + FirstCredit(Run(sha, s, es), k) <=
            FirstCredit(s, k) + CountWatches(es, k) + CountTimers(sha, s, es, k)
    ensures CountSecond(es, k) + SecondCredit(Run(sha, s, es), k) <= SecondCredit(s, k) + CountFirst(es, k)
    decreases |es|
  {
    if es == [] {
    } else {
      StepCredit(sha, s, es[0], k);
      RunCredit(sha, Step(sha, s, es[0]), es[1..], k);
    }
  }

  /** In every run, the registrations sent for a platform are no more than its watch events and
      fired timers, and each is one request of the first kind and at most one of the second. */
  lemma RegistrationsAreCaused(sha: Digest, s: State, es: seq<Event>, k: Name)
    requires Initial(sha, s) && Legal(sha, s, es)
    ensures CountFirst(es, k) <= CountWatches(es, k) + CountTimers(sha, s, es, k)
    ensures CountSecond(es, k) <= CountFirst(es, k)
  {
    RunCredit(sha, s, es, k);
  }
}
