/** Every status patch wakes the operator again: how often it can happen, and the code's form of a
    reconcile. */
module OperatorLoop {
  import opened Results
  import opened MergePatch
  import opened OperatorStatus
  import opened Operator

  // ---------- what is observed ----------

  datatype Seen =
    | SeenServices(daemonsetName: Text, counts: DaemonSetCounts, deploymentName: Option<Text>,
                   deploymentReady: Option<bool>)
    | SeenFailure(message: string)
    | SeenOther

  /** The tuple a reconcile observes: the services or the truncated error, and the generation. */
  function Observed(r: Reconcile): (Seen, Option<int>) {
    (match r.outcome
     case Success(o) =>
       SeenServices(o.daemonsetName, Counts(o), DeploymentName(o.registration), DeploymentReady(o.registration))
     case Failure(message) => SeenFailure(Truncated(message))
     case NotOldest(_) => SeenOther,
     r.generation)
  }

  predicate WritesAt(s: Option<Status>, r: Reconcile) {
    Writes(s, r.generation, r.outcome)
  }

  function After(s: Option<Status>, r: Reconcile): Option<Status> {
    GuardedWrite(s, r.generation, r.outcome, r.now)
  }

  /** Right after a reconcile the same observation is not written again. */
  lemma WriteSettles(s: Option<Status>, r: Reconcile)
    requires !r.outcome.NotOldest?
    ensures !WritesAt(After(s, r), r)
  {
    if WritesAt(s, r) {
      AlwaysWriteEffect(s, r.generation, r.outcome, r.now);
      var conditions := After(s, r).value.conditions;
      assert conditions == [WrittenCondition(r.generation, r.outcome, r.now)];
      match r.outcome {
        case Success(o) =>
          assert ReportsServices(conditions[0], IsReady(o));
        case Failure(message) =>
          assert ReportsFailure(conditions[0], r.generation, Free(Truncated(message)));
      }
    }
  }

  /** Once an observation is settled, the next reconcile patches the status if and only if it
      observes something else. */
  lemma WritesIffChanged(s: Option<Status>, settled: Reconcile, r: Reconcile)
    requires Kept(s) && !WritesAt(s, settled)
    requires !settled.outcome.NotOldest? && !r.outcome.NotOldest?
    ensures WritesAt(s, r) <==> Observed(r) != Observed(settled)
  {
  }

  // ---------- counting patches ----------

  function Patches(s: Option<Status>, rs: seq<Reconcile>): nat
    decreases |rs|
  {
    if rs == [] then 0 else (if WritesAt(s, rs[0]) then 1 else 0) + Patches(After(s, rs[0]), rs[1..])
  }

  function Changes(rs: seq<Reconcile>): nat {
    if |rs| < 2 then 0 else (if Observed(rs[0]) != Observed(rs[1]) then 1 else 0) + Changes(rs[1..])
  }

  lemma {:induction false} PatchesAfterFirst(s: Option<Status>, rs: seq<Reconcile>)
    requires rs != [] && Kept(s) && forall r :: r in rs ==> !r.outcome.NotOldest?
    ensures Patches(After(s, rs[0]), rs[1..]) == Changes(rs)
    decreases |rs|
  {
    if |rs| > 1 {
      assert rs[0] in rs && rs[1] in rs;
      var t := After(s, rs[0]);
      WriteKeeps(s, rs[0].generation, rs[0].outcome, rs[0].now);
      WriteSettles(s, rs[0]);
      WritesIffChanged(t, rs[0], rs[1]);
      assert rs[1..][0] == rs[1];
      PatchesAfterFirst(t, rs[1..]);
    }
  }

  /** The operator cannot wake itself for ever: with one instance, the number of status patches in a
      run is the number of times the observation changes between consecutive reconciles, plus one
      if the first reconcile finds something new. */
  lemma PatchesAreChanges(s: Option<Status>, rs: seq<Reconcile>)
    requires rs != [] && Kept(s) && forall r :: r in rs ==> !r.outcome.NotOldest?
    ensures Patches(s, rs) == (if WritesAt(s, rs[0]) then 1 else 0) + Changes(rs)
    ensures Patches(s, rs) <= 1 + Changes(rs)
  {
    PatchesAfterFirst(s, rs);
  }

  /** An outcome settles if and only if it is not the one of a superseded instance: that branch
      patches every time, so it never stops waking itself. */
  lemma SettlesIffSingle(s: Option<Status>, r: Reconcile)
    ensures WritesAt(After(s, r), r) <==> r.outcome.NotOldest?
  {
    if !r.outcome.NotOldest? {
      WriteSettles(s, r);
    }
  }

  lemma {:induction false} SupersededPatchesEveryTime(s: Option<Status>, rs: seq<Reconcile>)
    requires forall r :: r in rs ==> r.outcome.NotOldest?
    ensures Patches(s, rs) == |rs|
    decreases |rs|
  {
    if rs == [] {
    } else {
      assert rs[0] in rs;
      SupersededPatchesEveryTime(After(s, rs[0]), rs[1..]);
    }
  }

  /** The stored transition time moves with every patch, whether or not the condition's status
      flipped: after a patch it is the time of the patch, otherwise it stays. */
  lemma TransitionTimeIsPatchTime(s: Option<Status>, r: Reconcile)
    requires Kept(s)
    ensures After(s, r).Some? && |After(s, r).value.conditions| == 1
    ensures After(s, r).value.conditions[0].lastTransitionTime ==
            if WritesAt(s, r) then Some(r.now) else s.value.conditions[0].lastTransitionTime
  {
    AlwaysWriteEffect(s, r.generation, r.outcome, r.now);
  }

  function NotReadyYet(name: Text, ready: int): Outcome {
    Success(Observation(name, Some(DaemonSetCounts(2, 2, ready)), NotOnline))
  }

  /** It moves while the status stays False: one of two nodes becomes ready, then nothing flips, but
      the condition says that it did. */
  lemma TimeMovesWithoutFlip(s: Option<Status>, name: Text, generation: Option<int>, t0: int, t1: int)
    requires Kept(s)
    ensures var first := After(s, Reconcile(generation, NotReadyYet(name, 0), t0));
            var second := After(first, Reconcile(generation, NotReadyYet(name, 1), t1));
            && first.Some? && |first.value.conditions| == 1 && first.value.conditions[0].status == False
            && second.Some? && |second.value.conditions| == 1 && second.value.conditions[0].status == False
            && second.value.conditions[0].lastTransitionTime == Some(t1)
  {
    var r0 := Reconcile(generation, NotReadyYet(name, 0), t0);
    var r1 := Reconcile(generation, NotReadyYet(name, 1), t1);
    WriteKeeps(s, generation, r0.outcome, t0);
    WriteSettles(s, r0);
    WritesIffChanged(After(s, r0), r0, r1);
    AlwaysWriteEffect(After(s, r0), generation, r1.outcome, t1);
    StoredStatusIs(s, r0);
  }

  /** After a reconcile of the services the stored condition has the status it observed. */
  lemma StoredStatusIs(s: Option<Status>, r: Reconcile)
    requires Kept(s) && r.outcome.Success?
    ensures After(s, r).Some? && |After(s, r).value.conditions| == 1
    ensures After(s, r).value.conditions[0].status == if IsReady(r.outcome.seen) then True else False
  {
    AlwaysWriteEffect(s, r.generation, r.outcome, r.now);
  }

  // ---------- the code's form ----------

  /** The resource at the API server. */
  class Resource {
    var generation: Option<int>
    var status: Option<Status>
    var patches: nat

    constructor (generation: Option<int>)
      ensures this.generation == generation && status == None && patches == 0
    {
      this.generation, this.status, this.patches := generation, None, 0;
    }

    method PatchStatus(patch: Json)
      modifies this`status, this`patches
      ensures status == Patched(old(status), patch) && patches == old(patches) + 1
    {
      status := Patched(status, patch);
      patches := patches + 1;
    }

    method UpdateStatus(reason: Text, message: Text, now: int)
      modifies this`status, this`patches
      ensures patches == old(patches) + 1
      ensures var c := ErrorCondition(reason, message, generation, now);
              status == Patched(old(status), ConditionPatch(c, generation))
    {
      var c := Condition(Ready, False, Some(reason), Some(message), Some(now), generation);
      PatchStatus(ConditionPatch(c, generation));
    }

    /** The loop behind `conditions.iter().any(..)` of the success path. */
    method HasServiceCondition(ready: bool) returns (found: bool)
      ensures found <==> !ReadyConditionChanged(status, ready)
    {
      found := false;
      if status.None? {
        return;
      }
      for i := 0 to |status.value.conditions|
        invariant !found
        invariant forall j :: 0 <= j < i ==> !ReportsServices(status.value.conditions[j], ready)
      {
        if ReportsServices(status.value.conditions[i], ready) {
          return true;
        }
      }
    }

    /** `reconcile_resource` from the point where the services have been observed. */
    method ReportServices(o: Observation, now: int)
      modifies this`status, this`patches
      ensures status == GuardedWrite(old(status), generation, Success(o), now)
      ensures patches == old(patches) + if Writes(old(status), generation, Success(o)) then 1 else 0
    {
      var deploymentReady := DeploymentReady(o.registration);
      var ready := DaemonSetIsReady(o) && (if deploymentReady.Some? then deploymentReady.value else true);
      var statusChanged := StatusChanged(status, generation, o);
      var conditionFound := HasServiceCondition(ready);
      if statusChanged || !conditionFound {
        var s := SuccessStatus(o, generation, now);
        PatchStatus(FullPatch(s, s.conditions[0]));
      }
    }

    /** `report_reconcile_error` */
    method ReportReconcileError(message: string, now: int)
      modifies this`status, this`patches
      ensures status == GuardedWrite(old(status), generation, Failure(message), now)
      ensures patches == old(patches) + if Writes(old(status), generation, Failure(message)) then 1 else 0
    {
      var text := message;
      if |text| > MAX_STATUS_MESSAGE_LEN {
        text := text[..MAX_STATUS_MESSAGE_LEN];
      }
      if status.Some? {
        for i := 0 to |status.value.conditions|
          invariant forall j :: 0 <= j < i ==> !ReportsFailure(status.value.conditions[j], generation, Free(text))
        {
          if ReportsFailure(status.value.conditions[i], generation, Free(text)) {
            return;
          }
        }
      }
      UpdateStatus(ReconcileFailed, Free(text), now);
    }

    /** One reconcile: the status and the number of patches become what the writer's function says. */
    method ReconcileOnce(outcome: Outcome, now: int)
      modifies this`status, this`patches
      ensures status == After(old(status), Reconcile(generation, outcome, now))
      ensures patches == old(patches) + if WritesAt(old(status), Reconcile(generation, outcome, now)) then 1 else 0
    {
      match outcome
      case Success(o) => ReportServices(o, now);
      case Failure(message) => ReportReconcileError(message, now);
      case NotOldest(oldest) => UpdateStatus(MultipleInstances, OldestMessage(oldest), now);
    }
  }
}
