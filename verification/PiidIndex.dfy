/** The shared `piid-index` Secret under server-side apply with field ownership. */
module PiidIndex {
  import opened Bytes

  type Name = seq<Byte>
  type Value = seq<Byte>

  /** The data keys of an object, and which of them each field manager owns. */
  datatype Managed = Managed(data: map<Name, Value>, owners: map<Name, set<Name>>)

  function Owned(o: Managed, manager: Name): set<Name> {
    if manager in o.owners then o.owners[manager] else {}
  }

  /** The keys that `manager` owned alone and no longer applies: they are deleted. */
  function Dropped(o: Managed, manager: Name, applied: map<Name, Value>): set<Name> {
    set k | k in Owned(o, manager) && k !in applied &&
            forall other :: other in o.owners && other != manager ==> k !in o.owners[other]
  }

  /** A forced apply: the applied keys get their values and `manager` as owner, managers whose
      value was replaced lose the key, and keys no longer applied are given up. */
  function Apply(o: Managed, manager: Name, applied: map<Name, Value>): Managed {
    var dropped := Dropped(o, manager, applied);
    Managed(
      map k | k in o.data.Keys + applied.Keys && k !in dropped :: if k in applied then applied[k] else o.data[k],
      map x | x in o.owners.Keys + {manager} ::
        if x == manager then applied.Keys
        else set k | k in o.owners[x] && (k in applied ==> k in o.data && o.data[k] == applied[k]))
  }

  /** What an apply does to each key: the applied ones get their values; of the others exactly those
      that this manager alone owned go. */
  lemma ApplyExact(o: Managed, manager: Name, applied: map<Name, Value>, k: Name)
    ensures var t := Apply(o, manager, applied);
            && (k in applied ==> k in t.data && t.data[k] == applied[k])
            && (k !in applied ==>
                  && (k in t.data <==> k in o.data && (k in Owned(o, manager) ==>
                        exists other :: other in o.owners && other != manager && k in o.owners[other]))
                  && (k in t.data ==> t.data[k] == o.data[k]))
  {
  }

  /** And to who owns it: this manager owns what it applied, and the others what they owned, unless
      another value took its place. */
  lemma ApplyOwners(o: Managed, manager: Name, applied: map<Name, Value>, other: Name, k: Name)
    ensures var t := Apply(o, manager, applied);
            && Owned(t, manager) == applied.Keys
            && (other != manager ==>
                  (k in Owned(t, other) <==>
                     k in Owned(o, other) && (k in applied ==> k in o.data && o.data[k] == applied[k])))
  {
  }

  // "pck-cert-tool/"
  const FIELD_MANAGER_PREFIX: seq<Byte> := [112, 99, 107, 45, 99, 101, 114, 116, 45, 116, 111, 111, 108, 47]

  function RegistrarManager(qeId: Name): Name {
    FIELD_MANAGER_PREFIX + qeId
  }

  /** `patch_piid_index` */
  function PatchPiidIndex(o: Managed, qeId: Name, piid: Value): Managed {
    Apply(o, RegistrarManager(qeId), map[qeId := piid])
  }

  lemma RegistrarManagerInjective(a: Name, b: Name)
    requires RegistrarManager(a) == RegistrarManager(b)
    ensures a == b
  {
    assert RegistrarManager(a)[14..] == a && RegistrarManager(b)[14..] == b;
  }

  /** Each per-QE-ID manager owns at most its own key. */
  ghost predicate OwnKeysOnly(o: Managed) {
    forall q :: Owned(o, RegistrarManager(q)) <= {q}
  }

  datatype Write =
    | ByRegistrar(qeId: Name, piid: Value)
    | ByOther(manager: Name, applied: map<Name, Value>)

  predicate ForeignWrite(w: Write) {
    w.ByOther? ==> !(FIELD_MANAGER_PREFIX <= w.manager)
  }

  function ApplyWrite(o: Managed, w: Write): Managed {
    match w
    case ByRegistrar(qeId, piid) => PatchPiidIndex(o, qeId, piid)
    case ByOther(manager, applied) => Apply(o, manager, applied)
  }

  function ApplyAll(o: Managed, ws: seq<Write>): Managed {
    if ws == [] then o else ApplyWrite(ApplyAll(o, ws[..|ws| - 1]), ws[|ws| - 1])
  }

  lemma WriteKeepsOwnKeys(o: Managed, w: Write)
    requires OwnKeysOnly(o) && ForeignWrite(w)
    ensures OwnKeysOnly(ApplyWrite(o, w))
  {
    var after := ApplyWrite(o, w);
    forall q ensures Owned(after, RegistrarManager(q)) <= {q} {
      assert Owned(o, RegistrarManager(q)) <= {q};
      if w.ByRegistrar? && RegistrarManager(w.qeId) == RegistrarManager(q) {
        RegistrarManagerInjective(w.qeId, q);
      }
    }
  }

  /** One registration changes one entry: whatever the other platforms' tasks and any other manager
      have written before, the patch adds or replaces this platform's key and nothing else. */
  lemma PatchTouchesOneKey(o: Managed, qeId: Name, piid: Value)
    requires OwnKeysOnly(o)
    ensures PatchPiidIndex(o, qeId, piid).data == o.data[qeId := piid]
  {
  }

  predicate WritesFor(w: Write, qeId: Name) {
    w.ByRegistrar? && w.qeId == qeId
  }

  /** `ws[i]` is the last write of platform `qeId`. */
  ghost predicate LastWriteOf(ws: seq<Write>, i: nat, qeId: Name) {
    i < |ws| && WritesFor(ws[i], qeId) && forall j :: i < j < |ws| ==> !WritesFor(ws[j], qeId)
  }

  lemma LastWriteSnoc(ws: seq<Write>, w: Write, i: nat, qeId: Name)
    ensures LastWriteOf(ws + [w], i, qeId) <==> if WritesFor(w, qeId) then i == |ws| else LastWriteOf(ws, i, qeId)
  {
    var more := ws + [w];
    assert more[|ws|] == w;
    assert forall j :: 0 <= j < |ws| ==> more[j] == ws[j];
  }

  /** The entry of `qeId` is the one last written for it; without a write it is as it was `before`. */
  ghost predicate HoldsLastWrite(before: map<Name, Value>, data: map<Name, Value>, ws: seq<Write>, qeId: Name) {
    && (forall i: nat :: LastWriteOf(ws, i, qeId) ==> qeId in data && data[qeId] == ws[i].piid)
    && ((forall w :: w in ws ==> !WritesFor(w, qeId)) ==>
          (qeId in data <==> qeId in before) && (qeId in data ==> data[qeId] == before[qeId]))
    && ((exists w :: w in ws && WritesFor(w, qeId)) ==> exists i: nat :: LastWriteOf(ws, i, qeId))
  }

  lemma HoldsLastWriteSnoc(before: map<Name, Value>, data: map<Name, Value>, ws: seq<Write>, w: Write, qeId: Name)
    requires w.ByRegistrar? && HoldsLastWrite(before, data, ws, qeId)
    ensures HoldsLastWrite(before, data[w.qeId := w.piid], ws + [w], qeId)
  {
    forall i: nat ensures LastWriteOf(ws + [w], i, qeId) <==>
                          if WritesFor(w, qeId) then i == |ws| else LastWriteOf(ws, i, qeId)
    {
      LastWriteSnoc(ws, w, i, qeId);
    }
    assert forall x :: x in ws + [w] <==> x in ws || x == w;
    if WritesFor(w, qeId) {
      assert LastWriteOf(ws + [w], |ws|, qeId);
    } else if i: nat :| LastWriteOf(ws, i, qeId) {
      assert LastWriteOf(ws + [w], i, qeId);
    }
  }

  lemma {:induction false} OwnKeysInEveryRun(o: Managed, ws: seq<Write>)
    requires OwnKeysOnly(o) && forall w :: w in ws ==> ForeignWrite(w)
    ensures OwnKeysOnly(ApplyAll(o, ws))
  {
    if ws == [] {
    } else {
      OwnKeysInEveryRun(o, ws[..|ws| - 1]);
      assert ws[|ws| - 1] in ws;
      WriteKeepsOwnKeys(ApplyAll(o, ws[..|ws| - 1]), ws[|ws| - 1]);
    }
  }

  /** In every interleaving of registrations, from any index whose entries the registrars own apart,
      the index is the union of the last written entries and the ones there were before. */
  lemma {:induction false} IndexIsUnionOfLastWrites(o: Managed, ws: seq<Write>, qeId: Name)
    requires OwnKeysOnly(o) && forall w :: w in ws ==> w.ByRegistrar?
    ensures HoldsLastWrite(o.data, ApplyAll(o, ws).data, ws, qeId)
  {
    if ws == [] {
    } else {
      var init, last := ws[..|ws| - 1], ws[|ws| - 1];
      assert ws == init + [last];
      IndexIsUnionOfLastWrites(o, init, qeId);
      OwnKeysInEveryRun(o, init);
      PatchTouchesOneKey(ApplyAll(o, init), last.qeId, last.piid);
      HoldsLastWriteSnoc(o.data, ApplyAll(o, init).data, init, last, qeId);
    }
  }
}
