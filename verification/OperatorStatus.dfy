/** The operator's status writes: a dirty check in front of a JSON merge patch. */
module OperatorStatus {
  import opened Results
  import opened MergePatch

  datatype ConditionStatus = True | False | Unknown

  datatype Condition = Condition(
    conditionType: Text, status: ConditionStatus, reason: Option<Text>, message: Option<Text>,
    lastTransitionTime: Option<int>, observedGeneration: Option<int>)

  datatype Status = Status(
    daemonsetName: Option<Text>, desired: int, current: int, ready: int,
    deploymentName: Option<Text>, deploymentReady: Option<bool>,
    conditions: seq<Condition>, observedGeneration: Option<int>)

  const DEFAULT_STATUS: Status := Status(None, 0, 0, 0, None, None, [], None)

  // ---------- JSON form of the stored object ----------

  function StatusText(s: ConditionStatus): Text {
    match s case True => TrueText case False => FalseText case Unknown => UnknownText
  }

  function OfText(t: Option<Text>): Json { if t.Some? then String(t.value) else Null }
  function OfInt(n: Option<int>): Json { if n.Some? then Number(n.value) else Null }
  function OfBool(b: Option<bool>): Json { if b.Some? then Bool(b.value) else Null }

  /** An object with the given members; absent ones (`skip_serializing_if`) are Null here. */
  function Compact(members: map<Field, Json>): Json {
    Object(map k | k in members && !members[k].Null? :: members[k])
  }

  function ConditionJson(c: Condition): Json {
    Compact(map[TypeOf := String(c.conditionType), StatusOf := String(StatusText(c.status)), Reason := OfText(c.reason),
                Message := OfText(c.message), LastTransitionTime := OfInt(c.lastTransitionTime),
                ObservedGeneration := OfInt(c.observedGeneration)])
  }

  function ConditionsJson(cs: seq<Condition>): seq<Json> {
    seq(|cs|, i requires 0 <= i < |cs| => ConditionJson(cs[i]))
  }

  function StatusJson(s: Status): Json {
    Compact(map[DaemonsetName := OfText(s.daemonsetName), DesiredNumberScheduled := Number(s.desired),
                CurrentNumberScheduled := Number(s.current), NumberReady := Number(s.ready),
                RegistrationDeploymentName := OfText(s.deploymentName),
                RegistrationDeploymentReady := OfBool(s.deploymentReady),
                Conditions := if s.conditions == [] then Null else Array(ConditionsJson(s.conditions)),
                ObservedGeneration := OfInt(s.observedGeneration)])
  }

  function ObjectJson(s: Option<Status>): Json {
    if s.Some? then Object(map[StatusOf := StatusJson(s.value)]) else Object(map[])
  }

  // ---------- reading it back: a missing or null member gives the default ----------

  function TextIn(j: Json): Option<Text> { if j.String? then Some(j.text) else None }
  function IntIn(j: Json): Option<int> { if j.Number? then Some(j.n) else None }
  function BoolIn(j: Json): Option<bool> { if j.Bool? then Some(j.b) else None }
  function CountIn(j: Json): int { if j.Number? then j.n else 0 }

  function ReadCondition(j: Json): Condition {
    Condition(
      if TextIn(Member(j, TypeOf)).Some? then TextIn(Member(j, TypeOf)).value else Free(""),
      if Member(j, StatusOf) == String(TrueText) then True
      else if Member(j, StatusOf) == String(FalseText) then False else Unknown,
      TextIn(Member(j, Reason)), TextIn(Member(j, Message)),
      IntIn(Member(j, LastTransitionTime)), IntIn(Member(j, ObservedGeneration)))
  }

  function ReadConditions(j: Json): seq<Condition> {
    if j.Array? then seq(|j.items|, i requires 0 <= i < |j.items| => ReadCondition(j.items[i])) else []
  }

  function ReadStatus(j: Json): Status {
    Status(
      TextIn(Member(j, DaemonsetName)), CountIn(Member(j, DesiredNumberScheduled)),
      CountIn(Member(j, CurrentNumberScheduled)), CountIn(Member(j, NumberReady)),
      TextIn(Member(j, RegistrationDeploymentName)), BoolIn(Member(j, RegistrationDeploymentReady)),
      ReadConditions(Member(j, Conditions)), IntIn(Member(j, ObservedGeneration)))
  }

  function ReadObject(j: Json): Option<Status> {
    if Member(j, StatusOf).Null? then None else Some(ReadStatus(Member(j, StatusOf)))
  }

  lemma ConditionsRoundTrip(cs: seq<Condition>)
    ensures ReadConditions(Array(ConditionsJson(cs))) == cs
  {
  }

  lemma StatusMembers(s: Status)
    ensures var j := StatusJson(s);
            && j.Object? && Member(j, DaemonsetName) == OfText(s.daemonsetName)
            && Member(j, DesiredNumberScheduled) == Number(s.desired)
            && Member(j, CurrentNumberScheduled) == Number(s.current) && Member(j, NumberReady) == Number(s.ready)
            && Member(j, RegistrationDeploymentName) == OfText(s.deploymentName)
            && Member(j, RegistrationDeploymentReady) == OfBool(s.deploymentReady)
            && Member(j, ObservedGeneration) == OfInt(s.observedGeneration)
            && ReadConditions(Member(j, Conditions)) == s.conditions
  {
    ConditionsRoundTrip(s.conditions);
  }

  /** The stored object is read as what was written. */
  lemma StatusRoundTrip(s: Option<Status>)
    ensures ReadObject(ObjectJson(s)) == s
  {
    if s.Some? {
      StatusMembers(s.value);
    }
  }

  // ---------- patches ----------

  /** `patch_status` with `Patch::Merge`. */
  function Patched(s: Option<Status>, patch: Json): Option<Status> {
    ReadObject(Merge(ObjectJson(s), patch))
  }

  function StatusPatch(members: map<Field, Json>): Json {
    Object(map[StatusOf := Object(members)])
  }

  /** A condition as `json!` writes it: absent values are explicit nulls, which a merge patch
      keeps inside an array. */
  function ConditionLiteral(c: Condition): Json {
    Object(map[TypeOf := String(c.conditionType), StatusOf := String(StatusText(c.status)), Reason := OfText(c.reason),
               Message := OfText(c.message), LastTransitionTime := OfInt(c.lastTransitionTime),
               ObservedGeneration := OfInt(c.observedGeneration)])
  }

  /** The members of a condition in a patch. */
  lemma LiteralMembers(c: Condition)
    ensures var j := ConditionLiteral(c);
            && Member(j, TypeOf) == String(c.conditionType)
            && Member(j, StatusOf) == String(match c.status case True => TrueText case False => FalseText
                                                           case Unknown => UnknownText)
            && Member(j, Reason) == (if c.reason.Some? then String(c.reason.value) else Null)
            && Member(j, Message) == (if c.message.Some? then String(c.message.value) else Null)
            && Member(j, LastTransitionTime) ==
               (if c.lastTransitionTime.Some? then Number(c.lastTransitionTime.value) else Null)
            && Member(j, ObservedGeneration) ==
               (if c.observedGeneration.Some? then Number(c.observedGeneration.value) else Null)
  {
  }

  function ConditionMembers(c: Condition, generation: Option<int>): map<Field, Json> {
    map[Conditions := Array([ConditionLiteral(c)]), ObservedGeneration := OfInt(generation)]
  }

  /** The patch of `update_status`. */
  function ConditionPatch(c: Condition, generation: Option<int>): Json {
    StatusPatch(ConditionMembers(c, generation))
  }

  function FullMembers(s: Status, c: Condition): map<Field, Json> {
    map[DaemonsetName := OfText(s.daemonsetName), DesiredNumberScheduled := Number(s.desired),
        CurrentNumberScheduled := Number(s.current), NumberReady := Number(s.ready),
        RegistrationDeploymentName := OfText(s.deploymentName),
        RegistrationDeploymentReady := OfBool(s.deploymentReady),
        ObservedGeneration := OfInt(s.observedGeneration), Conditions := Array([ConditionLiteral(c)])]
  }

  /** The patch of `reconcile_resource`, for the status it means to leave behind. */
  function FullPatch(s: Status, c: Condition): Json {
    StatusPatch(FullMembers(s, c))
  }

  lemma LiteralRoundTrip(c: Condition)
    ensures ReadConditions(Array([ConditionLiteral(c)])) == [c]
  {
  }

  /** The members a leaf patch leaves in the status object. */
  lemma LeafMerge(target: Json, members: map<Field, Json>, k: Field)
    requires k in members ==> !members[k].Object?
    ensures Member(Merge(target, Object(members)), k) == if k in members then members[k] else Member(target, k)
  {
  }

  lemma StatusOfPatched(s: Option<Status>, members: map<Field, Json>)
    ensures Patched(s, StatusPatch(members)) ==
            Some(ReadStatus(Merge(Member(ObjectJson(s), StatusOf), Object(members))))
  {
  }

  function StatusOr(s: Option<Status>): Status {
    if s.Some? then s.value else DEFAULT_STATUS
  }

  ghost predicate Sets(members: map<Field, Json>, k: Field, value: Json) {
    k in members && members[k] == value && !value.Object?
  }

  lemma MergedCondition(target: Json, members: map<Field, Json>, c: Condition, generation: Option<int>)
    requires Sets(members, Conditions, Array([ConditionLiteral(c)]))
    requires Sets(members, ObservedGeneration, OfInt(generation))
    requires members.Keys == {Conditions, ObservedGeneration}
    ensures ReadStatus(Merge(target, Object(members))) ==
            ReadStatus(target).(conditions := [c], observedGeneration := generation)
  {
    LiteralRoundTrip(c);
    forall k ensures Member(Merge(target, Object(members)), k) ==
                     if k in members then members[k] else Member(target, k)
    {
      LeafMerge(target, members, k);
    }
  }

  lemma MergedStatus(target: Json, members: map<Field, Json>, t: Status, c: Condition)
    requires Sets(members, DaemonsetName, OfText(t.daemonsetName))
    requires Sets(members, DesiredNumberScheduled, Number(t.desired))
    requires Sets(members, CurrentNumberScheduled, Number(t.current))
    requires Sets(members, NumberReady, Number(t.ready))
    requires Sets(members, RegistrationDeploymentName, OfText(t.deploymentName))
    requires Sets(members, RegistrationDeploymentReady, OfBool(t.deploymentReady))
    requires Sets(members, ObservedGeneration, OfInt(t.observedGeneration))
    requires Sets(members, Conditions, Array([ConditionLiteral(c)])) && t.conditions == [c]
    ensures ReadStatus(Merge(target, Object(members))) == t
  {
    LiteralRoundTrip(c);
    LeafMerge(target, members, DaemonsetName);
    LeafMerge(target, members, DesiredNumberScheduled);
    LeafMerge(target, members, CurrentNumberScheduled);
    LeafMerge(target, members, NumberReady);
    LeafMerge(target, members, RegistrationDeploymentName);
    LeafMerge(target, members, RegistrationDeploymentReady);
    LeafMerge(target, members, ObservedGeneration);
    LeafMerge(target, members, Conditions);
  }

  lemma FullMembersMerge(target: Json, t: Status, c: Condition)
    requires t.conditions == [c]
    ensures ReadStatus(Merge(target, Object(FullMembers(t, c)))) == t
  {
    MergedStatus(target, FullMembers(t, c), t, c);
  }

  lemma StoredStatus(s: Option<Status>)
    ensures ReadStatus(Member(ObjectJson(s), StatusOf)) == StatusOr(s)
  {
    if s.Some? {
      StatusMembers(s.value);
    }
  }

  /** An error patch replaces the conditions and the observed generation and keeps the rest. */
  lemma ConditionPatchEffect(s: Option<Status>, c: Condition, generation: Option<int>)
    ensures Patched(s, ConditionPatch(c, generation)) ==
            Some(StatusOr(s).(conditions := [c], observedGeneration := generation))
  {
    var members := ConditionMembers(c, generation);
    StatusOfPatched(s, members);
    MergedCondition(Member(ObjectJson(s), StatusOf), members, c, generation);
    StoredStatus(s);
  }

  /** A success patch leaves exactly the status it was written for, whatever was stored. */
  lemma FullPatchEffect(s: Option<Status>, t: Status, c: Condition)
    requires t.conditions == [c]
    ensures Patched(s, FullPatch(t, c)) == Some(t)
  {
    StatusOfPatched(s, FullMembers(t, c));
    FullMembersMerge(Member(ObjectJson(s), StatusOf), t, c);
  }
}
