/** The PIID index in the runs of the registrar. */
module RegistrarIndex {
  import opened PlatformData
  import opened Registrar
  import PiidIndex
  import RegistrarCache

  /** One step of a platform's reconcile changes no other platform's index entry; with a write it
      leaves its own, without one it leaves the index alone. */
  lemma StepTouchesOwnEntry(sha: Digest, s: State, k: Name, op: Op)
    requires Invariant(sha, s) && Enabled(s, At(k, op))
    ensures Step(sha, s, At(k, op)).index.data ==
            if op.WriteIndex? && op.indexOk then s.index.data[k := s.active[k].piid] else s.index.data
  {
    if op.WriteIndex? {
      PiidIndex.PatchTouchesOneKey(s.index, k, s.active[k].piid);
    }
  }

  function WritesOf(s: State, e: Event): seq<PiidIndex.Write>
    requires Enabled(s, e)
  {
    if e.At? && e.op.WriteIndex? && e.op.indexOk then [PiidIndex.ByRegistrar(e.k, s.active[e.k].piid)] else []
  }

  /** The index writes of a run, in order. */
  ghost function IndexWrites(sha: Digest, s: State, es: seq<Event>): (ws: seq<PiidIndex.Write>)
    requires Legal(sha, s, es)
    ensures forall w :: w in ws ==> w.ByRegistrar?
    decreases |es|
  {
    if es == [] then [] else WritesOf(s, es[0]) + IndexWrites(sha, Step(sha, s, es[0]), es[1..])
  }

  lemma {:induction false} ApplyAllCons(o: PiidIndex.Managed, w: PiidIndex.Write, ws: seq<PiidIndex.Write>)
    ensures PiidIndex.ApplyAll(o, [w] + ws) == PiidIndex.ApplyAll(PiidIndex.ApplyWrite(o, w), ws)
  {
    var all := [w] + ws;
    if ws == [] {
      assert all[..0] == [] && all == [w];
    } else {
      var n := |ws| - 1;
      ApplyAllCons(o, w, ws[..n]);
      assert all[..n + 1] == [w] + ws[..n];
    }
  }

  lemma {:induction false} RunWritesIndex(sha: Digest, s: State, es: seq<Event>)
    requires Legal(sha, s, es)
    ensures Run(sha, s, es).index == PiidIndex.ApplyAll(s.index, IndexWrites(sha, s, es))
    decreases |es|
  {
    if es == [] {
    } else {
      var t := Step(sha, s, es[0]);
      var rest := IndexWrites(sha, t, es[1..]);
      RunWritesIndex(sha, t, es[1..]);
      if WritesOf(s, es[0]) == [] {
        assert [] + rest == rest;
      } else {
        ApplyAllCons(s.index, WritesOf(s, es[0])[0], rest);
      }
    }
  }

  /** In every run, under every interleaving, each platform's entry is the one its last successful
      index write put there; a platform without one has the entry it had before, if any. */
  lemma IndexHoldsLastEntries(sha: Digest, s: State, es: seq<Event>, qeId: Name)
    requires PiidIndex.OwnKeysOnly(s.index) && Legal(sha, s, es)
    ensures PiidIndex.HoldsLastWrite(s.index.data, Run(sha, s, es).index.data, IndexWrites(sha, s, es), qeId)
  {
    RunWritesIndex(sha, s, es);
    PiidIndex.IndexIsUnionOfLastWrites(s.index, IndexWrites(sha, s, es), qeId);
  }

  /** Exactly when a platform is in the index: it was before, or an index write of its own went
      through. A stored Secret by itself does not put it there. */
  lemma {:induction false} IndexedIffWritten(sha: Digest, s: State, es: seq<Event>, k: Name)
    requires Invariant(sha, s) && Legal(sha, s, es)
    ensures k in Run(sha, s, es).index.data <==> k in s.index.data || At(k, WriteIndex(true)) in es
    decreases |es|
  {
    if es == [] {
    } else {
      var t := Step(sha, s, es[0]);
      StepIndexes(sha, s, es[0], k);
      StepKeepsInvariant(sha, s, es[0]);
      IndexedIffWritten(sha, t, es[1..], k);
      FirstOrLater(At(k, WriteIndex(true)), es);
    }
  }

  lemma FirstOrLater(e: Event, es: seq<Event>)
    requires es != []
    ensures e in es <==> e == es[0] || e in es[1..]
  {
    assert es == [es[0]] + es[1..];
  }

  lemma StepIndexes(sha: Digest, s: State, e: Event, k: Name)
    requires Invariant(sha, s) && Enabled(s, e)
    ensures k in Step(sha, s, e).index.data <==> k in s.index.data || e == At(k, WriteIndex(true))
  {
    if e.At? {
      StepTouchesOwnEntry(sha, s, e.k, e.op);
    }
  }

  /** Every platform with a stored Secret has an index entry. */
  ghost predicate AllIndexed(s: State) {
    forall k :: PckName(k) in s.pck ==> k in s.index.data
  }

  /** Exactly which runs leave the index complete: those in which every platform whose Secret is
      there or gets stored has an entry or gets its index write through. */
  lemma AllIndexedIffWritten(sha: Digest, s: State, es: seq<Event>)
    requires Invariant(sha, s) && Legal(sha, s, es)
    ensures AllIndexed(Run(sha, s, es)) <==>
            forall k :: PckName(k) in s.pck || At(k, WriteSecret(true)) in es ==>
                        k in s.index.data || At(k, WriteIndex(true)) in es
  {
    var t := Run(sha, s, es);
    forall k ensures (PckName(k) in t.pck ==> k in t.index.data) <==>
      (PckName(k) in s.pck || At(k, WriteSecret(true)) in es ==> k in s.index.data || At(k, WriteIndex(true)) in es)
    {
      IndexedIffWritten(sha, s, es, k);
      RegistrarCache.SecretIffStored(sha, s, es, k);
    }
  }
}
