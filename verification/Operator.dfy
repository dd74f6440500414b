/** The operator's reconcile: when it writes the status and what skipping the write means. */
module Operator {
  import opened Results
  import opened MergePatch
  import opened OperatorStatus

  const MAX_STATUS_MESSAGE_LEN: nat := 1024

  // ---------- what a reconcile observes ----------

  datatype DaemonSetCounts = DaemonSetCounts(desired: int, current: int, ready: int)

  datatype DeploymentLookup = LookupFailed | DeploymentFound(readyReplicas: Option<int>, replicas: Option<int>)

  datatype Registration = NotOnline | Online(name: Text, lookup: DeploymentLookup)

  datatype Observation = Observation(daemonsetName: Text, counts: Option<DaemonSetCounts>, registration: Registration)

  datatype Outcome =
    | Success(seen: Observation)
    | Failure(message: string)
    | NotOldest(oldest: string)   // another, older instance exists

  function DeploymentName(r: Registration): Option<Text> {
    if r.Online? then Some(r.name) else None
  }

  function DeploymentReady(r: Registration): Option<bool> {
    match r
    case NotOnline => None
    case Online(_, LookupFailed) => Some(false)
    case Online(_, DeploymentFound(ready, total)) =>
      Some(ready.Some? && total.Some? && ready.value == total.value && ready.value > 0)
  }

  function Counts(o: Observation): DaemonSetCounts {
    if o.counts.Some? then o.counts.value else DaemonSetCounts(0, 0, 0)
  }

  predicate DaemonSetIsReady(o: Observation) {
    o.counts.Some? && o.counts.value.desired > 0 && o.counts.value.ready == o.counts.value.desired
  }

  predicate IsReady(o: Observation) {
    DaemonSetIsReady(o) && (DeploymentReady(o.registration).Some? ==> DeploymentReady(o.registration).value)
  }

  // ---------- the two dirty checks ----------

  predicate StatusChanged(s: Option<Status>, generation: Option<int>, o: Observation) {
    || s.None?
    || s.value.daemonsetName != Some(o.daemonsetName)
    || s.value.desired != Counts(o).desired
    || s.value.current != Counts(o).current
    || s.value.ready != Counts(o).ready
    || s.value.deploymentName != DeploymentName(o.registration)
    || s.value.deploymentReady != DeploymentReady(o.registration)
    || s.value.observedGeneration != generation
  }

  predicate ReadyConditionChanged(s: Option<Status>, ready: bool) {
    s.None? ||
    !exists i :: 0 <= i < |s.value.conditions| && ReportsServices(s.value.conditions[i], ready)
  }

  predicate ReportsServices(c: Condition, ready: bool) {
    c.conditionType == Ready && c.status == (if ready then True else False) &&
    c.reason == Some(if ready then ServicesReady else ServicesNotReady)
  }

  predicate AlreadyReported(s: Option<Status>, generation: Option<int>, message: Text) {
    s.Some? &&
    exists i :: 0 <= i < |s.value.conditions| && ReportsFailure(s.value.conditions[i], generation, message)
  }

  predicate ReportsFailure(c: Condition, generation: Option<int>, message: Text) {
    c.conditionType == Ready && c.reason == Some(ReconcileFailed) && c.message == Some(message) &&
    c.observedGeneration == generation
  }

  function Truncated(message: string): string {
    if |message| > MAX_STATUS_MESSAGE_LEN then message[..MAX_STATUS_MESSAGE_LEN] else message
  }

  predicate Writes(s: Option<Status>, generation: Option<int>, outcome: Outcome) {
    match outcome
    case Success(o) => StatusChanged(s, generation, o) || ReadyConditionChanged(s, IsReady(o))
    case Failure(message) => !AlreadyReported(s, generation, Free(Truncated(message)))
    case NotOldest(_) => true
  }

  // ---------- the patches ----------

  function ReadyMessage(ready: bool, deploymentReady: Option<bool>): Text {
    if ready then (if deploymentReady.Some? then BothReady else DaemonSetReady)
    else if deploymentReady == Some(false) then DeploymentNotReady
    else DaemonSetNotReady
  }

  function ServiceCondition(ready: bool, deploymentReady: Option<bool>, generation: Option<int>, now: int): Condition {
    Condition(Ready, if ready then True else False, Some(if ready then ServicesReady else ServicesNotReady),
              Some(ReadyMessage(ready, deploymentReady)), Some(now), generation)
  }

  function SuccessStatus(o: Observation, generation: Option<int>, now: int): Status {
    var c := ServiceCondition(IsReady(o), DeploymentReady(o.registration), generation, now);
    Status(Some(o.daemonsetName), Counts(o).desired, Counts(o).current, Counts(o).ready,
           DeploymentName(o.registration), DeploymentReady(o.registration), [c], generation)
  }

  function ErrorCondition(reason: Text, message: Text, generation: Option<int>, now: int): Condition {
    Condition(Ready, False, Some(reason), Some(message), Some(now), generation)
  }

  function OldestMessage(oldest: string): Text {
    Free("Only one TdxQuoteGenerationService instance is allowed. Instance '" + oldest + "' is active.")
  }

  /** The patch a reconcile sends when it writes. */
  function PatchFor(generation: Option<int>, outcome: Outcome, now: int): Json {
    match outcome
    case Success(o) => FullPatch(SuccessStatus(o, generation, now), SuccessStatus(o, generation, now).conditions[0])
    case Failure(message) =>
      ConditionPatch(ErrorCondition(ReconcileFailed, Free(Truncated(message)), generation, now), generation)
    case NotOldest(oldest) =>
      ConditionPatch(ErrorCondition(MultipleInstances, OldestMessage(oldest), generation, now), generation)
  }

  /** A writer that patches every time. */
  function AlwaysWrite(s: Option<Status>, generation: Option<int>, outcome: Outcome, now: int): Option<Status> {
    Patched(s, PatchFor(generation, outcome, now))
  }

  /** The operator's writer. */
  function GuardedWrite(s: Option<Status>, generation: Option<int>, outcome: Outcome, now: int): Option<Status> {
    if Writes(s, generation, outcome) then AlwaysWrite(s, generation, outcome, now) else s
  }

  /** The effect of a patch, without JSON. */
  function WrittenCondition(generation: Option<int>, outcome: Outcome, now: int): Condition {
    match outcome
    case Success(o) => ServiceCondition(IsReady(o), DeploymentReady(o.registration), generation, now)
    case Failure(message) => ErrorCondition(ReconcileFailed, Free(Truncated(message)), generation, now)
    case NotOldest(oldest) => ErrorCondition(MultipleInstances, OldestMessage(oldest), generation, now)
  }

  /** What a merge patch makes of the stored status: a success replaces all of it, an error keeps
      the counters and the deployment. */
  lemma AlwaysWriteEffect(s: Option<Status>, generation: Option<int>, outcome: Outcome, now: int)
    ensures AlwaysWrite(s, generation, outcome, now) ==
            Some(if outcome.Success? then SuccessStatus(outcome.seen, generation, now)
                 else StatusOr(s).(conditions := [WrittenCondition(generation, outcome, now)],
                                   observedGeneration := generation))
  {
    match outcome
    case Success(o) =>
      FullPatchEffect(s, SuccessStatus(o, generation, now), SuccessStatus(o, generation, now).conditions[0]);
    case _ =>
      ConditionPatchEffect(s, WrittenCondition(generation, outcome, now), generation);
  }

  // ---------- what is reported ----------

  /** The Deployment was found, with replicas, all of them ready. */
  predicate DeploymentUp(r: Registration) {
    && r.Online? && r.lookup.DeploymentFound?
    && r.lookup.readyReplicas.Some? && r.lookup.readyReplicas.value > 0
    && r.lookup.replicas == r.lookup.readyReplicas
  }

  predicate DaemonSetUp(o: Observation) {
    o.counts.Some? && o.counts.value.desired > 0 && o.counts.value.ready == o.counts.value.desired
  }

  /** What a success stores: the names and counts observed, zeros for a DaemonSet without a status,
      and the readiness of the Deployment, which is false for a lookup that fails and absent where no
      Deployment is used. */
  lemma StoredServices(s: Option<Status>, generation: Option<int>, o: Observation, now: int)
    ensures AlwaysWrite(s, generation, Success(o), now).Some?
    ensures var t := AlwaysWrite(s, generation, Success(o), now).value;
            && t.daemonsetName == Some(o.daemonsetName) && t.observedGeneration == generation
            && (o.counts.None? ==> t.desired == 0 && t.current == 0 && t.ready == 0)
            && (o.counts.Some? ==> && t.desired == o.counts.value.desired && t.current == o.counts.value.current
                                   && t.ready == o.counts.value.ready)
            && (o.registration.NotOnline? ==> t.deploymentName == None && t.deploymentReady == None)
            && (o.registration.Online? ==> && t.deploymentName == Some(o.registration.name)
                                           && t.deploymentReady == Some(DeploymentUp(o.registration)))
  {
    AlwaysWriteEffect(s, generation, Success(o), now);
  }

  /** The condition stored with it: ready if and only if all wanted DaemonSet pods are, there is one,
      and the Deployment is up where one is used; the message says which of them is in the way. */
  lemma StoredReadiness(s: Option<Status>, generation: Option<int>, o: Observation, now: int)
    ensures AlwaysWrite(s, generation, Success(o), now).Some?
    ensures var cs := AlwaysWrite(s, generation, Success(o), now).value.conditions;
            |cs| == 1 &&
            var c, online := cs[0], o.registration.Online?;
            var ready := DaemonSetUp(o) && (online ==> DeploymentUp(o.registration));
            && c.conditionType == Ready && c.lastTransitionTime == Some(now) && c.observedGeneration == generation
            && (ready ==> c.status == True && c.reason == Some(ServicesReady))
            && (!ready ==> c.status == False && c.reason == Some(ServicesNotReady))
            && (ready && online ==> c.message == Some(BothReady))
            && (ready && !online ==> c.message == Some(DaemonSetReady))
            && (online && !DeploymentUp(o.registration) ==> c.message == Some(DeploymentNotReady))
            && (!DaemonSetUp(o) && (online ==> DeploymentUp(o.registration)) ==> c.message == Some(DaemonSetNotReady))
  {
    AlwaysWriteEffect(s, generation, Success(o), now);
  }

  lemma TruncatedIs(message: string)
    ensures |message| <= 1024 ==> Truncated(message) == message
    ensures |message| > 1024 ==> |Truncated(message)| == 1024 && Truncated(message) <= message
  {
  }

  function ConditionIn(patch: Json): Json {
    var cs := Member(Member(patch, StatusOf), Conditions);
    if cs.Array? && |cs.items| == 1 then cs.items[0] else Null
  }

  /** The members of a success patch, by their names. */
  lemma SuccessPatchIs(generation: Option<int>, o: Observation, now: int)
    ensures var patch := PatchFor(generation, Success(o), now);
            var status := Member(patch, StatusOf);
            && Member(status, DaemonsetName) == String(o.daemonsetName)
            && Member(status, DesiredNumberScheduled) == Number(if o.counts.Some? then o.counts.value.desired else 0)
            && Member(status, CurrentNumberScheduled) == Number(if o.counts.Some? then o.counts.value.current else 0)
            && Member(status, NumberReady) == Number(if o.counts.Some? then o.counts.value.ready else 0)
            && Member(status, RegistrationDeploymentName) ==
               (if o.registration.Online? then String(o.registration.name) else Null)
            && Member(status, RegistrationDeploymentReady) ==
               (if o.registration.Online? then Bool(DeploymentUp(o.registration)) else Null)
            && Member(status, ObservedGeneration) == (if generation.Some? then Number(generation.value) else Null)
  {
  }

  /** The one condition in any patch is the one that is then stored. */
  lemma PatchConditionIs(generation: Option<int>, outcome: Outcome, now: int)
    ensures ConditionIn(PatchFor(generation, outcome, now)) ==
            ConditionLiteral(WrittenCondition(generation, outcome, now))
  {
  }

  /** What an error stores: a condition that is not ready, and nothing else changes but the
      generation. */
  lemma StoredError(s: Option<Status>, generation: Option<int>, outcome: Outcome, now: int)
    requires !outcome.Success?
    ensures var t := AlwaysWrite(s, generation, outcome, now);
            && t.Some? && |t.value.conditions| == 1 && t.value.observedGeneration == generation
            && t.value.(conditions := [], observedGeneration := None) ==
               StatusOr(s).(conditions := [], observedGeneration := None)
            && var c := t.value.conditions[0];
            && c.conditionType == Ready && c.status == False
            && c.lastTransitionTime == Some(now) && c.observedGeneration == generation
  {
    AlwaysWriteEffect(s, generation, outcome, now);
  }

  /** With it goes the error in full, or its first 1024 characters; or the name of the older instance. */
  lemma StoredMessage(s: Option<Status>, generation: Option<int>, outcome: Outcome, now: int)
    requires !outcome.Success?
    ensures var t := AlwaysWrite(s, generation, outcome, now);
            t.Some? && |t.value.conditions| == 1 &&
            var c := t.value.conditions[0];
            match outcome
            case Failure(message) =>
              && c.reason == Some(ReconcileFailed) && c.message.Some? && c.message.value.Free?
              && var text := c.message.value.s;
              && text <= message && (|message| <= 1024 ==> text == message) && (|message| > 1024 ==> |text| == 1024)
            case NotOldest(oldest) =>
              && c.reason == Some(MultipleInstances)
              && c.message == Some(Free("Only one TdxQuoteGenerationService instance is allowed. Instance '" +
                                        oldest + "' is active."))
            case Success(_) => true
  {
    AlwaysWriteEffect(s, generation, outcome, now);
    if outcome.Failure? {
      TruncatedIs(outcome.message);
    }
  }

  // ---------- the invariant of the stored status ----------

  predicate ServicesAreReady(s: Status) {
    s.desired > 0 && s.ready == s.desired && (s.deploymentReady.Some? ==> s.deploymentReady.value)
  }

  /** The one condition stored: a services condition is a function of the other stored fields, any
      other one is a failure of the observed generation. */
  predicate ConditionFits(s: Status, c: Condition) {
    && c.conditionType == Ready && c.lastTransitionTime.Some? && c.observedGeneration == s.observedGeneration
    && if c.reason in {Some(ServicesReady), Some(ServicesNotReady)}
       then c == ServiceCondition(ServicesAreReady(s), s.deploymentReady, s.observedGeneration,
                                  c.lastTransitionTime.value)
       else c.status == False && c.reason in {Some(ReconcileFailed), Some(MultipleInstances)}
  }

  predicate Kept(s: Option<Status>) {
    s.Some? ==> |s.value.conditions| == 1 && ConditionFits(s.value, s.value.conditions[0])
  }

  lemma SuccessFits(o: Observation, generation: Option<int>, now: int)
    ensures Kept(Some(SuccessStatus(o, generation, now)))
  {
    var s := SuccessStatus(o, generation, now);
    assert ServicesAreReady(s) == IsReady(o);
  }

  lemma ErrorFits(s: Status, reason: Text, message: Text, generation: Option<int>, now: int)
    requires reason == ReconcileFailed || reason == MultipleInstances
    ensures Kept(Some(s.(conditions := [ErrorCondition(reason, message, generation, now)],
                         observedGeneration := generation)))
  {
  }

  lemma WriteKeeps(s: Option<Status>, generation: Option<int>, outcome: Outcome, now: int)
    ensures Kept(AlwaysWrite(s, generation, outcome, now))
    ensures Kept(s) ==> Kept(GuardedWrite(s, generation, outcome, now))
  {
    AlwaysWriteEffect(s, generation, outcome, now);
    match outcome {
      case Success(o) =>
        SuccessFits(o, generation, now);
      case Failure(message) =>
        ErrorFits(StatusOr(s), ReconcileFailed, Free(Truncated(message)), generation, now);
      case NotOldest(oldest) =>
        ErrorFits(StatusOr(s), MultipleInstances, OldestMessage(oldest), generation, now);
    }
  }

  // ---------- skipping the write is harmless ----------

  function WithoutTime(c: Condition): Condition {
    c.(lastTransitionTime := None)
  }

  predicate EqualButTime(a: Option<Status>, b: Option<Status>) {
    if a.None? || b.None? then a == b
    else
      && a.value.(conditions := []) == b.value.(conditions := [])
      && |a.value.conditions| == |b.value.conditions|
      && forall i :: 0 <= i < |a.value.conditions| ==>
           WithoutTime(a.value.conditions[i]) == WithoutTime(b.value.conditions[i])
  }

  /** Whenever the dirty check skips the patch, applying it would have changed nothing but the
      transition time. */
  lemma SkipIsHarmless(s: Option<Status>, generation: Option<int>, outcome: Outcome, now: int)
    requires Kept(s) && !Writes(s, generation, outcome)
    ensures EqualButTime(s, AlwaysWrite(s, generation, outcome, now))
  {
    AlwaysWriteEffect(s, generation, outcome, now);
    if outcome.Success? {
      assert IsReady(outcome.seen) == ServicesAreReady(s.value);
    }
  }

  /** The stored status has one condition, and that reports the outcome for this generation. */
  predicate Reports(s: Option<Status>, generation: Option<int>, outcome: Outcome) {
    && s.Some? && |s.value.conditions| == 1 && s.value.observedGeneration == generation
    && var c, wanted := s.value.conditions[0], WrittenCondition(generation, outcome, 0);
    && c.conditionType == Ready && c.status == wanted.status && c.reason == wanted.reason
    && c.message == wanted.message && c.observedGeneration == generation
  }

  /** Whatever is stored, also by someone else: exactly when a patch that the dirty check skips would
      have changed nothing but the transition time. */
  lemma SkipIsHarmlessIffReported(s: Option<Status>, generation: Option<int>, outcome: Outcome, now: int)
    requires !Writes(s, generation, outcome)
    ensures EqualButTime(s, AlwaysWrite(s, generation, outcome, now)) <==> Reports(s, generation, outcome)
  {
    AlwaysWriteEffect(s, generation, outcome, now);
  }

  predicate SameReport(c: Condition, d: Condition) {
    c.conditionType == d.conditionType && c.status == d.status && c.reason == d.reason
  }

  predicate SameError(c: Condition, d: Condition) {
    c.conditionType == d.conditionType && c.reason == d.reason && c.message == d.message &&
    c.observedGeneration == d.observedGeneration
  }

  /** Whatever is stored, when the patch is skipped: after a success, exactly when all that it would store
      outside the conditions is stored, and a condition of the same type, status and reason; after an
      error, exactly when a condition of the same type, reason, message and generation is; and never when
      an older instance exists. */
  lemma SkippedExactly(s: Option<Status>, generation: Option<int>, outcome: Outcome, now: int)
    ensures var t := AlwaysWrite(s, generation, outcome, now);
            t.Some? && |t.value.conditions| == 1 &&
            (!Writes(s, generation, outcome) <==>
             && s.Some? && !outcome.NotOldest?
             && var conditions, wanted := s.value.conditions, t.value.conditions[0];
             if outcome.Success?
             then s.value.(conditions := []) == t.value.(conditions := []) &&
                  exists i :: 0 <= i < |conditions| && SameReport(conditions[i], wanted)
             else exists i :: 0 <= i < |conditions| && SameError(conditions[i], wanted))
  {
    AlwaysWriteEffect(s, generation, outcome, now);
    if s.Some? {
      var conditions, wanted := s.value.conditions, WrittenCondition(generation, outcome, now);
      match outcome {
        case Success(o) =>
          assert forall i :: 0 <= i < |conditions| ==>
                   (SameReport(conditions[i], wanted) <==> ReportsServices(conditions[i], IsReady(o)));
        case Failure(m) =>
          assert forall i :: 0 <= i < |conditions| ==>
                   (SameError(conditions[i], wanted) <==>
                    ReportsFailure(conditions[i], generation, Free(Truncated(m))));
        case NotOldest(_) =>
      }
    }
  }

  /** A status for which that fails: with a stale message stored, the check skips a patch that would
      repair it. */
  lemma StaleMessageIsNotRepaired(o: Observation, generation: Option<int>, now: int)
    ensures var s := SuccessStatus(o, generation, now);
            var stale := Some(s.(conditions := [s.conditions[0].(message := Some(Free("stale")))]));
            && !Kept(stale) && !Reports(stale, generation, Success(o)) && !Writes(stale, generation, Success(o))
            && !EqualButTime(stale, AlwaysWrite(stale, generation, Success(o), now))
  {
    var s := SuccessStatus(o, generation, now);
    var stale := Some(s.(conditions := [s.conditions[0].(message := Some(Free("stale")))]));
    assert stale.value.conditions[0].reason == s.conditions[0].reason;
    SkipIsHarmlessIffReported(stale, generation, Success(o), now);
  }

  /** One reconcile of a run: the generation it reads, what it observes and the time. */
  datatype Reconcile = Reconcile(generation: Option<int>, outcome: Outcome, now: int)

  function AlwaysRun(s: Option<Status>, rs: seq<Reconcile>): Option<Status> {
    if rs == [] then s
    else
      var last := rs[|rs| - 1];
      AlwaysWrite(AlwaysRun(s, rs[..|rs| - 1]), last.generation, last.outcome, last.now)
  }

  function GuardedRun(s: Option<Status>, rs: seq<Reconcile>): Option<Status> {
    if rs == [] then s
    else
      var last := rs[|rs| - 1];
      GuardedWrite(GuardedRun(s, rs[..|rs| - 1]), last.generation, last.outcome, last.now)
  }

  lemma WriteRespectsEquality(a: Option<Status>, b: Option<Status>, generation: Option<int>, outcome: Outcome, now: int)
    requires EqualButTime(a, b)
    ensures EqualButTime(AlwaysWrite(a, generation, outcome, now), AlwaysWrite(b, generation, outcome, now))
  {
    AlwaysWriteEffect(a, generation, outcome, now);
    AlwaysWriteEffect(b, generation, outcome, now);
    if !outcome.Success? {
      assert StatusOr(a).(conditions := []) == StatusOr(b).(conditions := []);
    }
  }

  lemma EqualityIsTransitive(a: Option<Status>, b: Option<Status>, c: Option<Status>)
    requires EqualButTime(a, b) && EqualButTime(b, c)
    ensures EqualButTime(a, c)
  {
  }

  /** The guarded writer refines the writer that patches every time: over every run mixing
      successes, errors and superseded instances, the stored statuses differ in transition times
      only. */
  lemma {:induction false} GuardedRefinesAlways(s: Option<Status>, rs: seq<Reconcile>)
    requires Kept(s)
    ensures Kept(GuardedRun(s, rs)) && EqualButTime(GuardedRun(s, rs), AlwaysRun(s, rs))
  {
    if rs == [] {
    } else {
      var init, last := rs[..|rs| - 1], rs[|rs| - 1];
      GuardedRefinesAlways(s, init);
      var g, a := GuardedRun(s, init), AlwaysRun(s, init);
      var written := AlwaysWrite(g, last.generation, last.outcome, last.now);
      WriteKeeps(g, last.generation, last.outcome, last.now);
      WriteRespectsEquality(g, a, last.generation, last.outcome, last.now);
      if !Writes(g, last.generation, last.outcome) {
        SkipIsHarmless(g, last.generation, last.outcome, last.now);
        EqualityIsTransitive(g, written, AlwaysRun(s, rs));
      }
    }
  }
}
