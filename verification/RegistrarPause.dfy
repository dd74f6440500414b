/** What a recorded pause guarantees in every interleaving, and what it does not. */
module RegistrarPause {
  import opened Results
  import opened PlatformData
  import opened Pause
  import opened Registrar

  /** The step sends a request to Intel PCS. */
  predicate IsSend(e: Event) {
    e.At? && (e.op.SendCerts? || e.op.SendTcb?)
  }

  function Sends(es: seq<Event>): nat {
    if es == [] then 0 else (if IsSend(es[0]) then 1 else 0) + Sends(es[1..])
  }

  /** The step lets a registration pass the pause. */
  predicate Admits(s: State, e: Event) {
    e.At? && e.op.Gate? && RemainingAt(s.pause, s.clock).None?
  }

  ghost predicate NeverAdmits(sha: Digest, s: State, es: seq<Event>)
    requires Legal(sha, s, es)
    decreases |es|
  {
    es == [] || (!Admits(s, es[0]) && NeverAdmits(sha, Step(sha, s, es[0]), es[1..]))
  }

  // ---------- the requests that admitted registrations may still send ----------

  predicate OwesFirst(stage: Stage) {
    stage.Admitted?
  }

  predicate OwesSecond(stage: Stage) {
    stage.Admitted? || stage.AwaitingCerts? || stage.Certified?
  }

  function FirstLeft(active: map<Name, Stage>): set<Name> {
    set k | k in active && OwesFirst(active[k])
  }

  function SecondLeft(active: map<Name, Stage>): set<Name> {
    set k | k in active && OwesSecond(active[k])
  }

  function RequestsLeft(active: map<Name, Stage>): nat {
    |FirstLeft(active)| + |SecondLeft(active)|
  }

  lemma SubsetSize<T>(a: set<T>, b: set<T>)
    requires a <= b
    ensures |a| <= |b|
  {
    assert b == a + (b - a);
  }

  lemma TwoPerRegistration(active: map<Name, Stage>)
    ensures RequestsLeft(active) <= 2 * |active|
  {
    SubsetSize(FirstLeft(active), active.Keys);
    SubsetSize(SecondLeft(active), active.Keys);
    assert |active.Keys| == |active|;
  }

  /** A step that is not an admission sends only what its registration owed. */
  lemma AdvanceOwes(sha: Digest, s: State, k: Name, stage: Stage, op: Op)
    requires OpEnabled(stage, op) && !(op.Gate? && RemainingAt(s.pause, s.clock).None?)
    ensures op.SendCerts? ==> OwesFirst(stage)
    ensures op.SendTcb? ==> OwesSecond(stage)
    ensures Advance(sha, s, k, stage, op).GoOn? ==>
              var next := Advance(sha, s, k, stage, op).stage;
              !OwesFirst(next) && (OwesSecond(next) ==> OwesSecond(stage) && !op.SendTcb?)
  {
  }

  lemma LeftAfter(active: map<Name, Stage>, k: Name, p: Progress, paidFirst: set<Name>, paidSecond: set<Name>)
    requires paidFirst <= {k} && paidFirst <= FirstLeft(active)
    requires paidSecond <= {k} && paidSecond <= SecondLeft(active)
    requires p.GoOn? ==> !OwesFirst(p.stage)
    requires p.GoOn? && OwesSecond(p.stage) ==> k in SecondLeft(active) && paidSecond == {}
    ensures RequestsLeft(ActiveAfter(active, k, p)) + |paidFirst| + |paidSecond| <= RequestsLeft(active)
  {
    var after := ActiveAfter(active, k, p);
    assert FirstLeft(after) <= FirstLeft(active) - paidFirst;
    assert SecondLeft(after) <= SecondLeft(active) - paidSecond;
    SubsetSize(FirstLeft(after), FirstLeft(active) - paidFirst);
    SubsetSize(SecondLeft(after), SecondLeft(active) - paidSecond);
  }

  /** Every request is paid for by the registration that sends it. */
  lemma StepSends(sha: Digest, s: State, e: Event)
    requires Enabled(s, e) && !Admits(s, e)
    ensures RequestsLeft(Step(sha, s, e).active) + (if IsSend(e) then 1 else 0) <= RequestsLeft(s.active)
  {
    match e {
      case Begin(k) =>
        LeftAfter(s.active, k, Started(k, s.platform), {}, {});
      case At(k, op) =>
        AdvanceOwes(sha, s, k, s.active[k], op);
        var paidFirst := if op.SendCerts? then {k} else {};
        var paidSecond := if op.SendTcb? then {k} else {};
        LeftAfter(s.active, k, Advance(sha, s, k, s.active[k], op), paidFirst, paidSecond);
      case _ =>
    }
  }

  lemma StepIsMonotone(sha: Digest, s: State, e: Event)
    requires Enabled(s, e)
    ensures s.clock <= Step(sha, s, e).clock
    ensures s.pause.Some? ==> Step(sha, s, e).pause.Some? && s.pause.value <= Step(sha, s, e).pause.value
  {
  }

  lemma {:induction false} RunIsMonotone(sha: Digest, s: State, es: seq<Event>)
    requires Legal(sha, s, es)
    ensures s.clock <= Run(sha, s, es).clock
    ensures s.pause.Some? ==> Run(sha, s, es).pause.Some? && s.pause.value <= Run(sha, s, es).pause.value
    decreases |es|
  {
    if es == [] {
    } else {
      StepIsMonotone(sha, s, es[0]);
      RunIsMonotone(sha, Step(sha, s, es[0]), es[1..]);
    }
  }

  /** While the clock has not reached the end of a recorded pause, no registration is admitted, and
      the requests sent are those the already admitted ones had left. */
  lemma {:induction false} PauseHoldsBack(sha: Digest, s: State, es: seq<Event>)
    requires Legal(sha, s, es) && s.pause.Some? && Run(sha, s, es).clock < s.pause.value
    ensures NeverAdmits(sha, s, es)
    ensures RequestsLeft(Run(sha, s, es).active) + Sends(es) <= RequestsLeft(s.active)
    decreases |es|
  {
    if es == [] {
    } else {
      var t := Step(sha, s, es[0]);
      StepIsMonotone(sha, s, es[0]);
      RunIsMonotone(sha, t, es[1..]);
      StepSends(sha, s, es[0]);
      PauseHoldsBack(sha, t, es[1..]);
    }
  }

  /** Right after a pause is recorded, at most three registrations are left, so six requests. */
  lemma SixLeftWhenPaused(sha: Digest, s: State, k: Name)
    requires |s.active| <= MAX_CONCURRENT_REGISTRATIONS && Enabled(s, At(k, RecordPause))
    ensures var paused := Step(sha, s, At(k, RecordPause));
            paused.pause.Some? && RequestsLeft(paused.active) <= 6
  {
    ActiveCount(s.active, k, Done(AwaitChange));
    TwoPerRegistration(ActiveAfter(s.active, k, Done(AwaitChange)));
  }

  /** A run cut at one of its events. */
  lemma RunCut(sha: Digest, s: State, before: seq<Event>, e: Event, after: seq<Event>)
    requires Legal(sha, s, before + [e] + after)
    ensures Legal(sha, s, before) && Enabled(Run(sha, s, before), e)
    ensures Legal(sha, Step(sha, Run(sha, s, before), e), after)
    ensures Run(sha, s, before + [e] + after) == Run(sha, Step(sha, Run(sha, s, before), e), after)
  {
    var rest := [e] + after;
    assert before + [e] + after == before + rest && rest[0] == e;
    RunSplit(sha, s, before, rest);
    RunCons(sha, Run(sha, s, before), e, after);
  }

  /** In every interleaving: once a pause has been recorded, until it ends no registration is
      admitted and at most six more requests are sent. */
  lemma AtMostSixRequests(sha: Digest, s: State, before: seq<Event>, k: Name, after: seq<Event>)
    requires Initial(sha, s) && Legal(sha, s, before + [At(k, RecordPause)] + after)
    ensures Legal(sha, s, before) && Enabled(Run(sha, s, before), At(k, RecordPause))
    ensures var paused := Step(sha, Run(sha, s, before), At(k, RecordPause));
            && paused.pause.Some? && Legal(sha, paused, after)
            && (Run(sha, paused, after).clock < paused.pause.value ==>
                  NeverAdmits(sha, paused, after) && Sends(after) <= 6)
  {
    RunCut(sha, s, before, At(k, RecordPause), after);
    RunKeepsInvariant(sha, s, before);
    SixLeftWhenPaused(sha, Run(sha, s, before), k);
    var paused := Step(sha, Run(sha, s, before), At(k, RecordPause));
    if Run(sha, paused, after).clock < paused.pause.value {
      PauseHoldsBack(sha, paused, after);
    }
  }

  // ---------- how long a pause lasts ----------

  /** The time of the last pause recorded in a run. */
  ghost function LastRecorded(sha: Digest, s: State, es: seq<Event>): Option<nat>
    requires Legal(sha, s, es)
    decreases |es|
  {
    if es == [] then None
    else
      var rest := LastRecorded(sha, Step(sha, s, es[0]), es[1..]);
      if rest.Some? then rest else if es[0].At? && es[0].op.RecordPause? then Some(s.clock) else None
  }

  /** The pause ends at `end` at the latest. */
  predicate EndsBy(pause: Option<nat>, end: nat) {
    pause.Some? ==> pause.value <= end
  }

  const HOUR: nat := 3600 * SECOND

  lemma StepPauses(sha: Digest, s: State, e: Event, end: nat)
    requires Invariant(sha, s) && Enabled(s, e) && EndsBy(s.pause, end)
    ensures if e.At? && e.op.RecordPause?
            then s.clock + HOUR <= end ==> EndsBy(Step(sha, s, e).pause, end)
            else Step(sha, s, e).pause == s.pause
  {
    if e.At? && e.op.RecordPause? {
      assert StageSound(e.k, s.active[e.k]);
    }
  }

  /** In every run no pause outlives the last 429 by more than an hour: what ends later was in force
      before. Without a 429 the pause stays as it was. */
  lemma {:induction false} PauseLastsAnHour(sha: Digest, s: State, es: seq<Event>, end: nat)
    requires Invariant(sha, s) && Legal(sha, s, es) && EndsBy(s.pause, end)
    ensures LastRecorded(sha, s, es).None? ==> Run(sha, s, es).pause == s.pause
    ensures LastRecorded(sha, s, es).Some? ==> s.clock <= LastRecorded(sha, s, es).value
    ensures LastRecorded(sha, s, es).Some? && LastRecorded(sha, s, es).value + HOUR <= end ==>
              EndsBy(Run(sha, s, es).pause, end)
    decreases |es|
  {
    if es == [] {
    } else {
      var t := Step(sha, s, es[0]);
      StepPauses(sha, s, es[0], end);
      StepIsMonotone(sha, s, es[0]);
      StepKeepsInvariant(sha, s, es[0]);
      if EndsBy(t.pause, end) {
        PauseLastsAnHour(sha, t, es[1..], end);
      } else {
        PauseLastsAnHour(sha, t, es[1..], t.pause.value);
      }
    }
  }

  // ---------- what is left is sent ----------

  /** `es` is a run from `s` to `t` that sends `n` requests. */
  ghost predicate Leads(sha: Digest, s: State, es: seq<Event>, t: State, n: nat) {
    Legal(sha, s, es) && Run(sha, s, es) == t && Sends(es) == n
  }

  lemma LeadsNowhere(sha: Digest, s: State)
    ensures Leads(sha, s, [], s, 0)
  {
  }

  lemma LeadsCons(sha: Digest, s: State, e: Event, next: State, es: seq<Event>, t: State, n: nat)
    requires Enabled(s, e) && Step(sha, s, e) == next && Leads(sha, next, es, t, n)
    ensures Leads(sha, s, [e] + es, t, n + if IsSend(e) then 1 else 0)
  {
    RunCons(sha, s, e, es);
    assert ([e] + es)[1..] == es;
  }

  /** A reconcile that has its certificates sends the second request. */
  lemma SendsSecondRequest(sha: Digest, s: State, k: Name, rest: seq<Event>, t: State, n: nat)
    returns (es: seq<Event>)
    requires k in s.active && s.active[k].Certified?
    requires Leads(sha, WithStage(s, k, AwaitingTcb(s.active[k].request, s.active[k].certs)), rest, t, n)
    ensures Leads(sha, s, es, t, n + 1)
  {
    LeadsCons(sha, s, At(k, SendTcb), WithStage(s, k, AwaitingTcb(s.active[k].request, s.active[k].certs)), rest, t, n);
    es := [At(k, SendTcb)] + rest;
  }

  /** A reconcile waiting for its certificates may get them, and then sends the second request. */
  lemma SendsAfterCerts(sha: Digest, s: State, k: Name, certs: Certs, rest: seq<Event>, t: State, n: nat)
    returns (es: seq<Event>)
    requires k in s.active && s.active[k].AwaitingCerts?
    requires Leads(sha, WithStage(s, k, AwaitingTcb(s.active[k].request, certs)), rest, t, n)
    ensures Leads(sha, s, es, t, n + 1)
  {
    var next := Certified(s.active[k].request, certs);
    WithStageTwice(s, k, next, AwaitingTcb(s.active[k].request, certs));
    es := SendsSecondRequest(sha, WithStage(s, k, next), k, rest, t, n);
    LeadsCons(sha, s, At(k, CertsAnswer(Usable(certs))), WithStage(s, k, next), es, t, n + 1);
    es := [At(k, CertsAnswer(Usable(certs)))] + es;
  }

  /** An admitted registration sends both requests. */
  lemma SendsBoth(sha: Digest, s: State, k: Name, certs: Certs, rest: seq<Event>, t: State, n: nat)
    returns (es: seq<Event>)
    requires k in s.active && s.active[k].Admitted?
    requires Leads(sha, WithStage(s, k, AwaitingTcb(s.active[k].request, certs)), rest, t, n)
    ensures Leads(sha, s, es, t, n + 2)
  {
    var next := AwaitingCerts(s.active[k].request);
    WithStageTwice(s, k, next, AwaitingTcb(s.active[k].request, certs));
    es := SendsAfterCerts(sha, WithStage(s, k, next), k, certs, rest, t, n);
    LeadsCons(sha, s, At(k, SendCerts), WithStage(s, k, next), es, t, n + 1);
    es := [At(k, SendCerts)] + es;
  }

  function Owed(stage: Stage): nat {
    if OwesFirst(stage) then 2 else if OwesSecond(stage) then 1 else 0
  }

  lemma LeftWhenPaid(active: map<Name, Stage>, k: Name, paid: Stage)
    requires k in active && OwesSecond(active[k]) && !OwesSecond(paid)
    ensures |SecondLeft(active[k := paid])| + 1 == |SecondLeft(active)|
    ensures RequestsLeft(active[k := paid]) + Owed(active[k]) == RequestsLeft(active)
  {
    assert SecondLeft(active[k := paid]) == SecondLeft(active) - {k};
    assert FirstLeft(active[k := paid]) == FirstLeft(active) - {k};
  }

  ghost predicate Reaches(sha: Digest, s: State, t: State, n: nat) {
    exists es :: Leads(sha, s, es, t, n)
  }

  /** One registration has sent what it owed and waits for the second answer. */
  function Paid(s: State, k: Name, certs: Certs): State
    requires k in s.active && OwesSecond(s.active[k])
  {
    WithStage(s, k, AwaitingTcb(s.active[k].request, if s.active[k].Certified? then s.active[k].certs else certs))
  }

  lemma SendsOwed(sha: Digest, s: State, k: Name, certs: Certs, t: State, n: nat)
    requires k in s.active && OwesSecond(s.active[k]) && Reaches(sha, Paid(s, k, certs), t, n)
    ensures Reaches(sha, s, t, n + Owed(s.active[k]))
  {
    var es :| Leads(sha, Paid(s, k, certs), es, t, n);
    match s.active[k] {
      case Admitted(_) => es := SendsBoth(sha, s, k, certs, es, t, n);
      case AwaitingCerts(_) => es := SendsAfterCerts(sha, s, k, certs, es, t, n);
      case Certified(_, _) => es := SendsSecondRequest(sha, s, k, es, t, n);
    }
  }

  /** A pause does not stop the registrations admitted before it, however far they have come: from
      every state a run sends every request they have left, at the same clock reading and whatever
      pause is in force. */
  lemma {:induction false} PauseDoesNotStopAdmitted(sha: Digest, s: State, certs: Certs)
    returns (es: seq<Event>, t: State)
    ensures Leads(sha, s, es, t, RequestsLeft(s.active)) && t.clock == s.clock && t.pause == s.pause
    decreases |SecondLeft(s.active)|
  {
    if k :| k in SecondLeft(s.active) {
      var next := Paid(s, k, certs);
      LeftWhenPaid(s.active, k, next.active[k]);
      es, t := PauseDoesNotStopAdmitted(sha, next, certs);
      SendsOwed(sha, s, k, certs, t, RequestsLeft(next.active));
      es :| Leads(sha, s, es, t, RequestsLeft(s.active));
    } else {
      SubsetSize(FirstLeft(s.active), SecondLeft(s.active));
      LeadsNowhere(sha, s);
      es, t := [], s;
    }
  }

  /** While the pause in force lasts, no run from here sends a request. */
  ghost predicate HoldsBackAll(sha: Digest, s: State)
    requires s.pause.Some?
  {
    forall es :: Legal(sha, s, es) && Run(sha, s, es).clock < s.pause.value ==> Sends(es) == 0
  }

  /** Some run sends `n` requests before the pause in force ends. */
  ghost predicate CanSend(sha: Digest, s: State, n: nat)
    requires s.pause.Some?
  {
    exists es :: Legal(sha, s, es) && Run(sha, s, es).clock < s.pause.value && Sends(es) == n
  }

  predicate NoneAdmitted(s: State) {
    forall k :: k in s.active ==> !OwesSecond(s.active[k])
  }

  const NO_CERTS: Certs := Certs([], [], [])

  /** Exactly when a pause holds back all requests: when no registration stands between its
      admission and its second request. What is left otherwise is the largest number that can
      still be sent. */
  lemma HoldsBackAllIffNoneAdmitted(sha: Digest, s: State)
    requires s.pause.Some? && s.clock < s.pause.value
    ensures HoldsBackAll(sha, s) <==> NoneAdmitted(s)
    ensures CanSend(sha, s, RequestsLeft(s.active))
    ensures forall n: nat :: CanSend(sha, s, n) ==> n <= RequestsLeft(s.active)
  {
    var es, t := PauseDoesNotStopAdmitted(sha, s, NO_CERTS);
    forall fs | Legal(sha, s, fs) && Run(sha, s, fs).clock < s.pause.value
      ensures Sends(fs) <= RequestsLeft(s.active)
    {
      PauseHoldsBack(sha, s, fs);
    }
    SubsetSize(FirstLeft(s.active), SecondLeft(s.active));
    if NoneAdmitted(s) {
      assert SecondLeft(s.active) == {};
    } else {
      var k :| k in s.active && OwesSecond(s.active[k]);
      assert k in SecondLeft(s.active);
    }
  }

  // ---------- the bound of six is reached ----------

  /** A watched platform with its data. */
  datatype Platform = Platform(name: Name, data: SecretData)

  /** The platform's data is valid, its stored Secret is missing or not valid for it, and it is not
      being reconciled. */
  ghost predicate NeedsRegistration(sha: Digest, s: State, p: Platform) {
    var request := PrepareRegistration(p.name, p.data);
    request.Ok? && p.name !in s.active && CheckResult(sha, s, p.name, request.value, true) == Ok(false)
  }

  lemma ReachesCons(sha: Digest, s: State, e: Event, t: State, n: nat)
    requires Enabled(s, e) && Reaches(sha, Step(sha, s, e), t, n)
    ensures Reaches(sha, s, t, n + if IsSend(e) then 1 else 0)
  {
    var es :| Leads(sha, Step(sha, s, e), es, t, n);
    LeadsCons(sha, s, e, Step(sha, s, e), es, t, n);
  }

  /** The state with the platform watched and admitted. */
  function WithAdmitted(s: State, p: Platform): State
    requires PrepareRegistration(p.name, p.data).Ok?
  {
    WithStage(Watched(s, p), p.name, Admitted(PrepareRegistration(p.name, p.data).value))
  }

  function Queued(s: State, k: Name, w: Wakeup): State {
    s.(pending := s.pending[k := w])
  }

  /** A wake-up that is due, of a platform with valid data, starts its reconcile. */
  lemma BeginStep(sha: Digest, s: State, k: Name, w: Wakeup, request: Request)
    requires k !in s.active && |s.active| < 4 && k !in s.pending && w.at <= s.clock
    requires Started(k, s.platform) == GoOn(Checking(request))
    ensures Enabled(Queued(s, k, w), Begin(k))
    ensures Step(sha, Queued(s, k, w), Begin(k)) == WithStage(s, k, Checking(request))
  {
    assert s.pending[k := w] - {k} == s.pending;
  }

  function Watched(s: State, p: Platform): State {
    s.(platform := s.platform[p.name := Some(p.data)])
  }

  lemma WatchStep(sha: Digest, s: State, p: Platform)
    requires p.name !in s.pending
    ensures Step(sha, s, Watch(p.name, Some(p.data))) == Queued(Watched(s, p), p.name, Wakeup(s.clock, false))
  {
  }

  /** A watched platform begins its reconcile. */
  lemma Begins(sha: Digest, s: State, p: Platform, t: State, n: nat)
    requires PrepareRegistration(p.name, p.data).Ok?
    requires p.name !in s.active && |s.active| < 4 && p.name !in s.pending
    requires Reaches(sha, WithStage(Watched(s, p), p.name, Checking(PrepareRegistration(p.name, p.data).value)), t, n)
    ensures Reaches(sha, s, t, n)
  {
    var w := Wakeup(s.clock, false);
    WatchStep(sha, s, p);
    BeginStep(sha, Watched(s, p), p.name, w, PrepareRegistration(p.name, p.data).value);
    ReachesCons(sha, Queued(Watched(s, p), p.name, w), Begin(p.name), t, n);
    ReachesCons(sha, s, Watch(p.name, Some(p.data)), t, n);
  }

  /** A reconcile without a valid Secret is admitted when no pause is in force. */
  lemma IsAdmitted(sha: Digest, s: State, k: Name, request: Request, t: State, n: nat)
    requires k in s.active && s.active[k] == Checking(request) && s.pause == None
    requires CheckResult(sha, s, k, request, true) == Ok(false)
    requires Reaches(sha, WithStage(s, k, Admitted(request)), t, n)
    ensures Reaches(sha, s, t, n)
  {
    var next := WithStage(s, k, Deciding(request));
    assert Step(sha, s, At(k, Check(true))) == next;
    WithStageTwice(s, k, Deciding(request), Admitted(request));
    assert Step(sha, next, At(k, Gate)) == WithStage(s, k, Admitted(request));
    ReachesCons(sha, next, At(k, Gate), t, n);
    ReachesCons(sha, s, At(k, Check(true)), t, n);
  }

  lemma CanBeAdmitted(sha: Digest, s: State, p: Platform, t: State, n: nat)
    requires NeedsRegistration(sha, s, p) && |s.active| < 4 && p.name !in s.pending && s.pause == None
    requires Reaches(sha, WithAdmitted(s, p), t, n)
    ensures Reaches(sha, s, t, n)
  {
    var request := PrepareRegistration(p.name, p.data).value;
    var begun := WithStage(Watched(s, p), p.name, Checking(request));
    WithStageTwice(Watched(s, p), p.name, Checking(request), Admitted(request));
    IsAdmitted(sha, begun, p.name, request, t, n);
    Begins(sha, s, p, t, n);
  }

  /** The state in which the platforms have been admitted one after the other. */
  function AllAdmitted(s: State, ps: seq<Platform>): (t: State)
    requires forall p :: p in ps ==> PrepareRegistration(p.name, p.data).Ok?
    ensures t.clock == s.clock && t.pause == s.pause && |t.active| <= |s.active| + |ps|
    ensures forall p :: p in ps ==> p.name in t.active && t.active[p.name].Admitted?
    ensures forall k :: k in s.active && s.active[k].Admitted? ==> k in t.active && t.active[k].Admitted?
    decreases |ps|
  {
    if ps == [] then s
    else
      assert ps == [ps[0]] + ps[1..];
      AdmittedCount(s, ps[0]);
      AllAdmitted(WithAdmitted(s, ps[0]), ps[1..])
  }

  lemma AdmittedCount(s: State, p: Platform)
    requires PrepareRegistration(p.name, p.data).Ok?
    ensures |WithAdmitted(s, p).active| <= |s.active| + 1
  {
    ActiveCount(s.active, p.name, GoOn(Admitted(PrepareRegistration(p.name, p.data).value)));
  }

  ghost predicate CanStart(sha: Digest, s: State, ps: seq<Platform>) {
    && |s.active| + |ps| <= 4 && s.pause == None && s.pending == map[]
    && (forall p :: p in ps ==> NeedsRegistration(sha, s, p))
    && (forall i, j :: 0 <= i < j < |ps| ==> ps[i].name != ps[j].name)
  }

  lemma CanStartRest(sha: Digest, s: State, ps: seq<Platform>)
    requires ps != [] && CanStart(sha, s, ps)
    ensures NeedsRegistration(sha, s, ps[0]) && CanStart(sha, WithAdmitted(s, ps[0]), ps[1..])
  {
    assert ps[0] in ps;
    var next := WithAdmitted(s, ps[0]);
    AdmittedCount(s, ps[0]);
    forall p | p in ps[1..] ensures NeedsRegistration(sha, next, p) {
      var i :| 0 <= i < |ps[1..]| && ps[1..][i] == p;
      assert p == ps[i + 1] && p in ps;
    }
  }

  /** As many platforms as fit the limit can be under way at the same time, all of them admitted. */
  lemma {:induction false} CanAllBeAdmitted(sha: Digest, s: State, ps: seq<Platform>, admitted: State, t: State, n: nat)
    requires CanStart(sha, s, ps) && admitted == AllAdmitted(s, ps) && Reaches(sha, admitted, t, n)
    ensures Reaches(sha, s, t, n)
    decreases |ps|
  {
    if ps == [] {
    } else {
      CanStartRest(sha, s, ps);
      CanAllBeAdmitted(sha, WithAdmitted(s, ps[0]), ps[1..], admitted, t, n);
      CanBeAdmitted(sha, s, ps[0], t, n);
    }
  }

  /** An admitted registration may be rate limited without a usable Retry-After. */
  lemma CanBeThrottled(sha: Digest, s: State, k: Name)
    requires k in s.active && s.active[k].Admitted?
    ensures Reaches(sha, s, WithStage(s, k, Throttled(60)), 1)
  {
    var waiting, end := WithStage(s, k, AwaitingCerts(s.active[k].request)), WithStage(s, k, Throttled(60));
    var answer := At(k, CertsAnswer(HttpError(429, None)));
    LeadsNowhere(sha, end);
    WithStageTwice(s, k, AwaitingCerts(s.active[k].request), Throttled(60));
    assert Step(sha, waiting, answer) == end;
    ReachesCons(sha, waiting, answer, end, 0);
    ReachesCons(sha, s, At(k, SendCerts), end, 0);
  }

  /** With three registrations admitted, a pause recorded for the fourth is followed by six. */
  lemma SixAfterThrottled(sha: Digest, mid: State, k: Name, others: set<Name>) returns (after: seq<Event>, end: State)
    requires |mid.active| <= 4 && |others| == 3 && k !in others
    requires k in mid.active && mid.active[k] == Throttled(60)
    requires forall x :: x in others ==> x in mid.active && mid.active[x].Admitted?
    ensures Enabled(mid, At(k, RecordPause))
    ensures var paused := Step(sha, mid, At(k, RecordPause));
            paused.pause.Some? && end.clock < paused.pause.value && Leads(sha, paused, after, end, 6)
  {
    var paused := Step(sha, mid, At(k, RecordPause));
    SixLeftWhenPaused(sha, mid, k);
    assert forall x :: x in others ==> x in FirstLeft(paused.active) && x in SecondLeft(paused.active);
    SubsetSize(others, FirstLeft(paused.active));
    SubsetSize(others, SecondLeft(paused.active));
    after, end := PauseDoesNotStopAdmitted(sha, paused, NO_CERTS);
  }

  lemma StartsValid(sha: Digest, s: State, ps: seq<Platform>)
    requires CanStart(sha, s, ps)
    ensures forall p :: p in ps ==> PrepareRegistration(p.name, p.data).Ok?
  {
    forall p | p in ps ensures PrepareRegistration(p.name, p.data).Ok? {
      assert NeedsRegistration(sha, s, p);
    }
  }

  /** Of four platforms with different names, the first three. */
  lemma FirstThree(ps: seq<Platform>) returns (others: set<Name>)
    requires |ps| == 4 && forall i, j :: 0 <= i < j < |ps| ==> ps[i].name != ps[j].name
    ensures |others| == 3 && ps[3].name !in others
    ensures forall x :: x in others ==> exists p :: p in ps && p.name == x
  {
    others := {ps[0].name, ps[1].name, ps[2].name};
    assert ps[0] in ps && ps[1] in ps && ps[2] in ps;
  }

  /** The last of the admitted platforms is rate limited. */
  lemma LastThrottled(t: State, k: Name, others: set<Name>) returns (mid: State)
    requires k in t.active && |t.active| <= 4 && k !in others
    requires forall x :: x in others ==> x in t.active && t.active[x].Admitted?
    ensures mid == WithStage(t, k, Throttled(60)) && |mid.active| <= 4
    ensures forall x :: x in others ==> x in mid.active && mid.active[x].Admitted?
  {
    mid := WithStage(t, k, Throttled(60));
    ActiveCount(t.active, k, GoOn(Throttled(60)));
  }

  /** The bound of six is exact: for any four platforms that need a registration there is a run that
      records a pause, after which six more requests are sent before the pause ends. */
  lemma SixIsReached(sha: Digest, s: State, ps: seq<Platform>) returns (mid: State, after: seq<Event>, end: State)
    requires Initial(sha, s) && CanStart(sha, s, ps) && |ps| == 4
    ensures Reaches(sha, s, mid, 1) && Enabled(mid, At(ps[3].name, RecordPause))
    ensures var paused := Step(sha, mid, At(ps[3].name, RecordPause));
            paused.pause.Some? && end.clock < paused.pause.value && Leads(sha, paused, after, end, 6)
  {
    StartsValid(sha, s, ps);
    var t := AllAdmitted(s, ps);
    var others := FirstThree(ps);
    assert ps[3] in ps;
    mid := LastThrottled(t, ps[3].name, others);
    CanBeThrottled(sha, t, ps[3].name);
    CanAllBeAdmitted(sha, s, ps, t, mid, 1);
    after, end := SixAfterThrottled(sha, mid, ps[3].name, others);
  }
}
