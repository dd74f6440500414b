/** JSON values and the JSON merge patch of section 2 of RFC 7396. */
module MergePatch {
  /** The member names of the status object that the operator uses, and all others. */
  datatype Field =
    | StatusOf | DaemonsetName | DesiredNumberScheduled | CurrentNumberScheduled | NumberReady
    | RegistrationDeploymentName | RegistrationDeploymentReady | Conditions | ObservedGeneration
    | TypeOf | Reason | Message | LastTransitionTime
    | OtherField(name: string)

  /** The strings that the operator writes or compares, and all others. */
  datatype Text =
    | Ready | TrueText | FalseText | UnknownText
    | ServicesReady | ServicesNotReady | ReconcileFailed | MultipleInstances
    | BothReady | DaemonSetReady | DeploymentNotReady | DaemonSetNotReady
    | Free(s: string)

  datatype Json =
    | Null
    | Bool(b: bool)
    | Number(n: int)
    | String(text: Text)
    | Array(items: seq<Json>)
    | Object(members: map<Field, Json>)

  function Member(j: Json, k: Field): Json {
    if j.Object? && k in j.members then j.members[k] else Null
  }

  function Merge(target: Json, patch: Json): Json
    decreases patch
  {
    if !patch.Object? then patch
    else
      var base := if target.Object? then target.members else map[];
      Object(map k | k in base.Keys + patch.members.Keys && !(k in patch.members && patch.members[k].Null?) ::
        if k in patch.members then Merge(Member(target, k), patch.members[k]) else base[k])
  }

  /** Member by member: null removes, an object is merged into, anything else (an array too)
      replaces, and members the patch does not name stay. */
  lemma MergeMember(target: Json, patch: Json, k: Field)
    requires patch.Object?
    ensures Merge(target, patch).Object?
    ensures k in patch.members && patch.members[k].Null? ==> k !in Merge(target, patch).members
    ensures k in patch.members && !patch.members[k].Null? ==>
              k in Merge(target, patch).members &&
              Merge(target, patch).members[k] == Merge(Member(target, k), patch.members[k])
    ensures k !in patch.members ==> Member(Merge(target, patch), k) == Member(target, k)
  {
  }
}
