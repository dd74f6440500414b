/** `get-certificates`: the watcher that keeps the on-disk QPL cache file in step with the
    platform's `-pck` secret, and the `cache-ready` probe that waits for it. */
module Watcher {
  import opened Bytes
  import opened Results
  import CacheBlob

  datatype Secret = Secret(resourceVersion: Option<string>, data: Option<map<string, seq<Byte>>>)

  /** What the watch stream yields; its end and SIGTERM both end the list of events. */
  datatype Event = Applied(secret: Secret) | WatchError

  type Directory = map<string, seq<Byte>>

  const CERTIFICATE: string := "certificate"

  /** The cache blob a secret offers, when its certificate field is one. */
  ghost function Offered(s: Secret): Option<seq<Byte>> {
    if s.data.Some? && CERTIFICATE in s.data.value && CacheBlob.WellFormed(s.data.value[CERTIFICATE])
    then Some(s.data.value[CERTIFICATE]) else None
  }

  ghost function Written(dir: Directory, name: string, s: Secret): Directory {
    if Offered(s).Some? then dir[name := Offered(s).value] else dir
  }

  /** The key read is `certificate`, and what is offered there is the encoding of some blob. */
  lemma OfferedIs(s: Secret, data: seq<Byte>)
    ensures Offered(s) == Some(data) <==>
            && s.data.Some? && "certificate" in s.data.value && s.data.value["certificate"] == data
            && exists blob: CacheBlob.Blob :: CacheBlob.Encode(blob) == data
  {
  }

  // ---------- the watcher, and one that processes every event ----------

  datatype State = State(dir: Directory, lastSeen: Option<string>)

  predicate SeenBefore(w: State, s: Secret) {
    s.resourceVersion.Some? && s.resourceVersion == w.lastSeen
  }

  ghost function Step(w: State, name: string, e: Event): State {
    if e.WatchError? || SeenBefore(w, e.secret) then w
    else State(Written(w.dir, name, e.secret), e.secret.resourceVersion)
  }

  ghost function Watch(w: State, name: string, es: seq<Event>): State {
    if es == [] then w else Step(Watch(w, name, es[..|es| - 1]), name, es[|es| - 1])
  }

  /** The state after the initial read, which counts as having seen the secret. */
  ghost function Initial(dir: Directory, name: string, found: Option<Secret>): State {
    if found.None? then State(dir, None)
    else State(Written(dir, name, found.value), found.value.resourceVersion)
  }

  /** The secrets delivered: the one read at the start, then those of the stream. */
  function Delivered(found: Option<Secret>, es: seq<Event>): seq<Secret> {
    if es == [] then (if found.Some? then [found.value] else [])
    else
      var last := es[|es| - 1];
      Delivered(found, es[..|es| - 1]) + if last.Applied? then [last.secret] else []
  }

  ghost function WriteAll(dir: Directory, name: string, ss: seq<Secret>): Directory {
    if ss == [] then dir else Written(WriteAll(dir, name, ss[..|ss| - 1]), name, ss[|ss| - 1])
  }

  class CertificateWatcher {
    const fileName: string
    var dir: Directory
    var lastSeen: Option<string>

    ghost function Now(): State reads this { State(dir, lastSeen) }

    constructor (cacheId: string, existing: Directory)
      ensures fileName == cacheId + "_0000" && Now() == State(existing, None)
    {
      fileName := cacheId + "_0000";
      dir := existing;
      lastSeen := None;
    }

    method WriteCertificateFromSecret(s: Secret)
      modifies this`dir
      ensures dir == Written(old(dir), fileName, s)
    {
      if s.data.None? {
        return;
      }
      if CERTIFICATE !in s.data.value {
        return;
      }
      var blob := s.data.value[CERTIFICATE];
      var parsed := CacheBlob.ParseCacheBlob(blob);
      if parsed.Err? {
        return;
      }
      dir := dir[fileName := blob];
    }

    method InitialRead(found: Option<Secret>)
      requires lastSeen == None
      modifies this
      ensures Now() == Initial(old(dir), fileName, found)
    {
      if found.Some? {
        WriteCertificateFromSecret(found.value);
        lastSeen := found.value.resourceVersion;
      }
    }

    method Handle(e: Event)
      modifies this
      ensures Now() == Step(old(Now()), fileName, e)
    {
      match e
      case WatchError =>
      case Applied(s) =>
        if s.resourceVersion.Some? && s.resourceVersion == lastSeen {
          return;
        }
        WriteCertificateFromSecret(s);
        lastSeen := s.resourceVersion;
    }

    method WatchCertificates(found: Option<Secret>, es: seq<Event>)
      requires lastSeen == None
      modifies this
      ensures Now() == Watch(Initial(old(dir), fileName, found), fileName, es)
    {
      InitialRead(found);
      ghost var start := Now();
      var i := 0;
      while i < |es|
        invariant 0 <= i <= |es|
        invariant Now() == Watch(start, fileName, es[..i])
      {
        assert es[..i + 1][..i] == es[..i];
        Handle(es[i]);
        i := i + 1;
      }
      assert es[..i] == es;
    }

    /** The `cache-ready` probe: the directory has an entry. */
    method CacheReady() returns (ready: bool)
      ensures ready <==> dir != map[]
    {
      ready := dir != map[];
    }
  }

  // ---------- skipping seen versions is harmless ----------

  /** Equal resource versions mean equal content. */
  ghost predicate Consistent(ss: seq<Secret>) {
    forall s, t :: s in ss && t in ss && s.resourceVersion.Some? && s.resourceVersion == t.resourceVersion
                   ==> s.data == t.data
  }

  lemma WriteTwice(dir: Directory, name: string, s: Secret, t: Secret)
    requires s.data == t.data
    ensures Written(Written(dir, name, s), name, t) == Written(dir, name, s)
  {
  }

  /** Writing any delivered secret of the version last seen again would change nothing. */
  ghost predicate UpToDate(w: State, name: string, all: seq<Secret>) {
    forall s :: s in all && SeenBefore(w, s) ==> Written(w.dir, name, s) == w.dir
  }

  lemma StepUpToDate(w: State, name: string, e: Event, all: seq<Secret>)
    requires UpToDate(w, name, all) && Consistent(all) && (e.Applied? ==> e.secret in all)
    ensures UpToDate(Step(w, name, e), name, all)
    ensures Step(w, name, e).dir == if e.Applied? then Written(w.dir, name, e.secret) else w.dir
  {
  }

  lemma {:induction false} WatchWritesAll(dir: Directory, name: string, found: Option<Secret>, es: seq<Event>,
                                          all: seq<Secret>)
    requires Consistent(all) && forall s :: s in Delivered(found, es) ==> s in all
    ensures var w := Watch(Initial(dir, name, found), name, es);
            UpToDate(w, name, all) && w.dir == WriteAll(dir, name, Delivered(found, es))
  {
    if es == [] {
      if found.Some? {
        var s := found.value;
        assert Delivered(found, es)[..0] == [];
        assert Delivered(found, es)[0] in Delivered(found, es);
        forall t | t in all && SeenBefore(Initial(dir, name, found), t)
          ensures Written(Written(dir, name, s), name, t) == Written(dir, name, s)
        {
          WriteTwice(dir, name, s, t);
        }
      }
    } else {
      var n := |es| - 1;
      var before, after := Delivered(found, es[..n]), Delivered(found, es);
      assert forall s :: s in before ==> s in after;
      WatchWritesAll(dir, name, found, es[..n], all);
      if es[n].Applied? {
        assert after[|before|] == es[n].secret && after[..|before|] == before;
        assert es[n].secret in after;
      } else {
        assert after == before;
      }
      StepUpToDate(Watch(Initial(dir, name, found), name, es[..n]), name, es[n], all);
    }
  }

  /** The watcher leaves the same directory as one that processes every event. */
  lemma SkippingIsHarmless(dir: Directory, name: string, found: Option<Secret>, es: seq<Event>)
    requires Consistent(Delivered(found, es))
    ensures Watch(Initial(dir, name, found), name, es).dir == WriteAll(dir, name, Delivered(found, es))
  {
    WatchWritesAll(dir, name, found, es, Delivered(found, es));
  }

  // ---------- which events are skipped ----------

  function LastVersion(ss: seq<Secret>): Option<string> {
    if ss == [] then None else ss[|ss| - 1].resourceVersion
  }

  /** The version kept is that of the last secret delivered, whether it was valid or not. */
  lemma {:induction false} KeptVersionIsLast(dir: Directory, name: string, found: Option<Secret>, es: seq<Event>)
    ensures Watch(Initial(dir, name, found), name, es).lastSeen == LastVersion(Delivered(found, es))
  {
    if es != [] {
      KeptVersionIsLast(dir, name, found, es[..|es| - 1]);
    }
  }

  /** For any history, one more secret is skipped exactly when it has a version and that is the version of
      the delivery before it; otherwise a valid blob in it goes to the file. Stream errors change nothing. */
  lemma SkippedIffSameVersion(dir: Directory, name: string, found: Option<Secret>, es: seq<Event>, s: Secret)
    ensures var start := Initial(dir, name, found);
            var before, after := Watch(start, name, es).dir, Watch(start, name, es + [Applied(s)]).dir;
            var seen := LastVersion(Delivered(found, es));
            && (seen.Some? && s.resourceVersion == seen ==> after == before)
            && (seen.None? || s.resourceVersion != seen ==>
                  after == if Offered(s).Some? then before[name := Offered(s).value] else before)
            && Watch(start, name, es + [WatchError]).dir == before
  {
    KeptVersionIsLast(dir, name, found, es);
    assert (es + [Applied(s)])[..|es|] == es && (es + [WatchError])[..|es|] == es;
  }

  // ---------- what is in the file ----------

  /** Delivery `k` is the last one that offered a valid blob. */
  ghost predicate LastValid(ss: seq<Secret>, k: nat) {
    k < |ss| && Offered(ss[k]).Some? && forall j :: k < j < |ss| ==> Offered(ss[j]).None?
  }

  ghost predicate NoneValid(ss: seq<Secret>) {
    forall j :: 0 <= j < |ss| ==> Offered(ss[j]).None?
  }

  /** The directory is what it was, except that the cache file holds the last valid blob
      delivered, if there was one. */
  ghost predicate HoldsLastValid(before: Directory, name: string, ss: seq<Secret>, dir: Directory) {
    || (NoneValid(ss) && dir == before)
    || exists k: nat :: LastValid(ss, k) && dir == before[name := Offered(ss[k]).value]
  }

  lemma LastValidSnoc(ss: seq<Secret>, s: Secret, k: nat)
    ensures Offered(s).Some? ==> LastValid(ss + [s], |ss|)
    ensures Offered(s).None? && LastValid(ss, k) ==> LastValid(ss + [s], k) && (ss + [s])[k] == ss[k]
    ensures Offered(s).None? && NoneValid(ss) ==> NoneValid(ss + [s])
  {
  }

  lemma StillLastValid(before: Directory, name: string, ss: seq<Secret>, dir: Directory, s: Secret)
    requires HoldsLastValid(before, name, ss, dir)
    ensures HoldsLastValid(before, name, ss + [s], Written(dir, name, s))
  {
    if NoneValid(ss) {
      LastValidSnoc(ss, s, 0);
    } else {
      var k: nat :| LastValid(ss, k) && dir == before[name := Offered(ss[k]).value];
      LastValidSnoc(ss, s, k);
    }
  }

  lemma {:induction false} WriteAllHoldsLastValid(dir: Directory, name: string, ss: seq<Secret>)
    ensures HoldsLastValid(dir, name, ss, WriteAll(dir, name, ss))
  {
    if ss == [] {
    } else {
      var n := |ss| - 1;
      WriteAllHoldsLastValid(dir, name, ss[..n]);
      StillLastValid(dir, name, ss[..n], WriteAll(dir, name, ss[..n]), ss[n]);
      assert ss == ss[..n] + [ss[n]];
    }
  }

  /** After every event sequence the cache file is the last valid blob delivered, or as it was when
      none has been; the gate of an empty directory opens exactly when one has been delivered. */
  lemma FileIsLastValid(dir: Directory, name: string, found: Option<Secret>, es: seq<Event>)
    requires Consistent(Delivered(found, es))
    ensures var ss := Delivered(found, es);
            var now := Watch(Initial(dir, name, found), name, es).dir;
            HoldsLastValid(dir, name, ss, now) && (dir == map[] ==> (now == map[] <==> NoneValid(ss)))
  {
    var ss := Delivered(found, es);
    SkippingIsHarmless(dir, name, found, es);
    WriteAllHoldsLastValid(dir, name, ss);
    if k: nat :| LastValid(ss, k) && WriteAll(dir, name, ss) == dir[name := Offered(ss[k]).value] {
      assert name in WriteAll(dir, name, ss);
    }
  }

  /** Invalid content never replaces a valid file, whatever the versions say. */
  lemma {:induction false} ValidStaysValid(w: State, name: string, es: seq<Event>)
    requires name in w.dir && CacheBlob.WellFormed(w.dir[name])
    ensures var now := Watch(w, name, es).dir; name in now && CacheBlob.WellFormed(now[name])
  {
    if es == [] {
    } else {
      ValidStaysValid(w, name, es[..|es| - 1]);
    }
  }

  lemma DeliveredTwo(s: Secret, t: Secret)
    ensures Delivered(Some(s), [Applied(t)]) == [s, t]
  {
    var es := [Applied(t)];
    assert es[..|es| - 1] == [];
    assert Delivered(Some(s), []) == [s];
  }

  lemma WriteTwo(dir: Directory, name: string, s: Secret, t: Secret)
    ensures WriteAll(dir, name, [s, t]) == Written(Written(dir, name, s), name, t)
  {
    var one, two := [s], [s, t];
    assert two[..|two| - 1] == one && one[..|one| - 1] == [];
    assert WriteAll(dir, name, one) == Written(dir, name, s);
  }

  lemma WatchOne(w: State, name: string, e: Event)
    ensures Watch(w, name, [e]) == Step(w, name, e)
  {
    var es := [e];
    assert es[..|es| - 1] == [];
  }

  /** A secret that holds a valid blob. */
  function Holding(version: string, blob: CacheBlob.Blob): Secret {
    Secret(Some(version), Some(map[CERTIFICATE := CacheBlob.Encode(blob)]))
  }

  lemma HoldingOffers(version: string, blob: CacheBlob.Blob)
    ensures Offered(Holding(version, blob)) == Some(CacheBlob.Encode(blob))
  {
    var data := map[CERTIFICATE := CacheBlob.Encode(blob)];
    assert data[CERTIFICATE] == CacheBlob.Encode(blob);
  }

  /** Without that guarantee of the API server a change can be missed: a second valid blob under
      the version already seen is not written. */
  lemma ReusedVersionIsMissed(name: string, version: string, a: CacheBlob.Blob, b: CacheBlob.Blob)
    requires a != b
    ensures var first, second := Holding(version, a), Holding(version, b);
            var es := [Applied(second)];
            && Watch(Initial(map[], name, Some(first)), name, es).dir == map[name := CacheBlob.Encode(a)]
            && WriteAll(map[], name, Delivered(Some(first), es)) == map[name := CacheBlob.Encode(b)]
            && CacheBlob.Encode(a) != CacheBlob.Encode(b)
  {
    var first, second := Holding(version, a), Holding(version, b);
    HoldingOffers(version, a);
    HoldingOffers(version, b);
    DeliveredTwo(first, second);
    WriteTwo(map[], name, first, second);
    WatchOne(Initial(map[], name, Some(first)), name, Applied(second));
    if CacheBlob.Encode(a) == CacheBlob.Encode(b) {
      CacheBlob.EncodeInjective(a, b);
    }
  }
}
