/** The condition list of a status object: `set_condition`, `remove_condition`, `get_condition`. */
module Conditions {
  import opened Results
  import opened MergePatch
  import opened OperatorStatus

  ghost predicate UniqueTypes(cs: seq<Condition>) {
    forall i, j :: 0 <= i < j < |cs| ==> cs[i].conditionType != cs[j].conditionType
  }

  /** Position of the first condition of type `t`; the length of the list when there is none. */
  function Find(cs: seq<Condition>, t: Text): (i: nat)
    ensures i <= |cs| && (i < |cs| ==> cs[i].conditionType == t)
    ensures forall k :: 0 <= k < i ==> cs[k].conditionType != t
  {
    if cs == [] || cs[0].conditionType == t then 0 else 1 + Find(cs[1..], t)
  }

  function Get(cs: seq<Condition>, t: Text): Option<Condition> {
    if Find(cs, t) < |cs| then Some(cs[Find(cs, t)]) else None
  }

  /** `c` as stored over `previous`: an equal status keeps the old transition time. */
  function Stamped(c: Condition, previous: Option<Condition>): Condition {
    if previous.Some? && previous.value.status == c.status
    then c.(lastTransitionTime := previous.value.lastTransitionTime) else c
  }

  function Set(cs: seq<Condition>, c: Condition): seq<Condition> {
    var i := Find(cs, c.conditionType);
    if i < |cs| then cs[i := Stamped(c, Some(cs[i]))] else cs + [c]
  }

  function Remove(cs: seq<Condition>, t: Text): seq<Condition> {
    if cs == [] then []
    else (if cs[0].conditionType != t then [cs[0]] else []) + Remove(cs[1..], t)
  }

  lemma {:induction false} RemoveSnoc(cs: seq<Condition>, c: Condition, t: Text)
    ensures Remove(cs + [c], t) == Remove(cs, t) + if c.conditionType != t then [c] else []
  {
    if cs == [] {
      assert cs + [c] == [c];
    } else {
      RemoveSnoc(cs[1..], c, t);
      assert (cs + [c])[1..] == cs[1..] + [c];
    }
  }

  class ConditionList {
    var conditions: seq<Condition>

    constructor (cs: seq<Condition>)
      ensures conditions == cs
    {
      conditions := cs;
    }

    method IndexOf(t: Text) returns (i: nat)
      ensures i == Find(conditions, t)
    {
      i := 0;
      while i < |conditions| && conditions[i].conditionType != t
        invariant i <= |conditions|
        invariant forall k :: 0 <= k < i ==> conditions[k].conditionType != t
      {
        i := i + 1;
      }
    }

    method GetCondition(t: Text) returns (r: Option<Condition>)
      ensures r == Get(conditions, t)
    {
      var i := IndexOf(t);
      r := if i < |conditions| then Some(conditions[i]) else None;
    }

    method SetCondition(condition: Condition)
      modifies this
      ensures conditions == Set(old(conditions), condition)
    {
      var c := condition;
      var i := IndexOf(c.conditionType);
      if i < |conditions| {
        if conditions[i].status == c.status {
          c := c.(lastTransitionTime := conditions[i].lastTransitionTime);
        }
        conditions := conditions[i := c];
      } else {
        conditions := conditions + [c];
      }
    }

    method RemoveCondition(t: Text)
      modifies this
      ensures conditions == Remove(old(conditions), t)
    {
      var all, kept, i := conditions, [], 0;
      while i < |all|
        invariant 0 <= i <= |all|
        invariant kept == Remove(all[..i], t)
      {
        RemoveSnoc(all[..i], all[i], t);
        assert all[..i + 1] == all[..i] + [all[i]];
        if all[i].conditionType != t {
          kept := kept + [all[i]];
        }
        i := i + 1;
      }
      assert all[..i] == all;
      conditions := kept;
    }
  }

  // ---------- the list as a map ----------

  lemma GetCons(c: Condition, rest: seq<Condition>, u: Text)
    ensures Get([c] + rest, u) == if c.conditionType == u then Some(c) else Get(rest, u)
  {
  }

  lemma {:induction false} GetAfterRemove(cs: seq<Condition>, t: Text, u: Text)
    ensures Get(Remove(cs, t), u) == if u == t then None else Get(cs, u)
  {
    if cs == [] {
    } else {
      var rest := Remove(cs[1..], t);
      GetAfterRemove(cs[1..], t, u);
      GetCons(cs[0], cs[1..], u);
      GetCons(cs[0], rest, u);
      assert cs == [cs[0]] + cs[1..] && [] + rest == rest;
    }
  }

  lemma SetCons(head: Condition, rest: seq<Condition>, c: Condition)
    ensures Set([head] + rest, c) ==
            if head.conditionType == c.conditionType then [Stamped(c, Some(head))] + rest else [head] + Set(rest, c)
  {
  }

  lemma {:induction false} GetAfterSet(cs: seq<Condition>, c: Condition, u: Text)
    ensures Get(Set(cs, c), u) == if u == c.conditionType then Some(Stamped(c, Get(cs, u))) else Get(cs, u)
  {
    if cs == [] {
      GetCons(c, [], u);
      assert [c] + [] == [c];
    } else {
      var head, rest := cs[0], cs[1..];
      assert cs == [head] + rest;
      SetCons(head, rest, c);
      GetCons(head, rest, u);
      GetCons(head, Set(rest, c), u);
      GetCons(Stamped(c, Some(head)), rest, u);
      GetAfterSet(rest, c, u);
    }
  }

  lemma FindUnique(cs: seq<Condition>, t: Text, i: nat)
    requires i <= |cs| && (i < |cs| ==> cs[i].conditionType == t)
    requires forall k :: 0 <= k < i ==> cs[k].conditionType != t
    ensures Find(cs, t) == i
  {
  }

  /** Setting one type changes that type alone and keeps every condition in its place. */
  lemma SetKeepsUnique(cs: seq<Condition>, c: Condition)
    requires UniqueTypes(cs)
    ensures UniqueTypes(Set(cs, c))
    ensures |Set(cs, c)| == |cs| + if Get(cs, c.conditionType).Some? then 0 else 1
    ensures forall i :: 0 <= i < |cs| && cs[i].conditionType != c.conditionType ==> Set(cs, c)[i] == cs[i]
  {
  }

  lemma {:induction false} RemoveMembers(cs: seq<Condition>, t: Text, c: Condition)
    ensures c in Remove(cs, t) <==> c in cs && c.conditionType != t
  {
    if cs == [] {
    } else {
      RemoveMembers(cs[1..], t, c);
      assert c in cs <==> c == cs[0] || c in cs[1..];
    }
  }

  lemma {:induction false} RemoveKeepsUnique(cs: seq<Condition>, t: Text)
    requires UniqueTypes(cs)
    ensures UniqueTypes(Remove(cs, t))
  {
    if cs == [] {
    } else {
      var rest := Remove(cs[1..], t);
      RemoveKeepsUnique(cs[1..], t);
      forall k | 0 <= k < |rest| ensures rest[k].conditionType != cs[0].conditionType {
        RemoveMembers(cs[1..], t, rest[k]);
      }
    }
  }

  // ---------- histories ----------

  datatype Change = SetTo(condition: Condition) | RemoveType(removed: Text)

  function TypeOfChange(e: Change): Text {
    if e.SetTo? then e.condition.conditionType else e.removed
  }

  function Changed(cs: seq<Condition>, e: Change): seq<Condition> {
    if e.SetTo? then Set(cs, e.condition) else Remove(cs, e.removed)
  }

  function After(cs: seq<Condition>, es: seq<Change>): seq<Condition> {
    if es == [] then cs else Changed(After(cs, es[..|es| - 1]), es[|es| - 1])
  }

  function AsMap(cs: seq<Condition>): map<Text, Condition> {
    if cs == [] then map[] else AsMap(cs[1..])[cs[0].conditionType := cs[0]]
  }

  lemma {:induction false} AsMapIsGet(cs: seq<Condition>)
    ensures forall t :: Get(cs, t) == if t in AsMap(cs) then Some(AsMap(cs)[t]) else None
    ensures UniqueTypes(cs) ==> |AsMap(cs)| == |cs|
  {
    if cs == [] {
    } else {
      var rest := cs[1..];
      AsMapIsGet(rest);
      forall t ensures Get(cs, t) == if t in AsMap(cs) then Some(AsMap(cs)[t]) else None {
        GetCons(cs[0], rest, t);
        assert cs == [cs[0]] + rest;
      }
      if UniqueTypes(cs) {
        assert UniqueTypes(rest);
        assert Get(rest, cs[0].conditionType) == None;
      }
    }
  }

  function ChangedMap(m: map<Text, Condition>, e: Change): map<Text, Condition> {
    match e
    case SetTo(c) =>
      m[c.conditionType := Stamped(c, if c.conditionType in m then Some(m[c.conditionType]) else None)]
    case RemoveType(t) => m - {t}
  }

  function Lookup(m: map<Text, Condition>, t: Text): Option<Condition> {
    if t in m then Some(m[t]) else None
  }

  lemma SameLookups(l: map<Text, Condition>, r: map<Text, Condition>)
    requires forall t :: Lookup(l, t) == Lookup(r, t)
    ensures l == r
  {
    assert forall t :: t in l <==> Lookup(l, t).Some?;
    assert forall t :: t in r <==> Lookup(r, t).Some?;
    assert forall t :: t in l ==> l[t] == Lookup(l, t).value;
  }

  lemma LookupChanged(cs: seq<Condition>, e: Change, t: Text)
    ensures Get(Changed(cs, e), t) == Lookup(ChangedMap(AsMap(cs), e), t)
  {
    AsMapIsGet(cs);
    assert Lookup(AsMap(cs), t) == Get(cs, t);
    match e {
      case SetTo(c) => GetAfterSet(cs, c, t);
      case RemoveType(u) => GetAfterRemove(cs, u, t);
    }
  }

  /** The list refines a map from type to condition. */
  lemma ChangeRefinesMap(cs: seq<Condition>, e: Change)
    ensures AsMap(Changed(cs, e)) == ChangedMap(AsMap(cs), e)
  {
    AsMapIsGet(Changed(cs, e));
    forall t ensures Lookup(AsMap(Changed(cs, e)), t) == Lookup(ChangedMap(AsMap(cs), e), t) {
      LookupChanged(cs, e, t);
    }
    SameLookups(AsMap(Changed(cs, e)), ChangedMap(AsMap(cs), e));
  }

  function MapAfter(m: map<Text, Condition>, es: seq<Change>): map<Text, Condition> {
    if es == [] then m else ChangedMap(MapAfter(m, es[..|es| - 1]), es[|es| - 1])
  }

  /** So it does over any sequence of changes. */
  lemma {:induction false} HistoryRefinesMap(cs: seq<Condition>, es: seq<Change>)
    ensures AsMap(After(cs, es)) == MapAfter(AsMap(cs), es)
  {
    if es == [] {
    } else {
      HistoryRefinesMap(cs, es[..|es| - 1]);
      ChangeRefinesMap(After(cs, es[..|es| - 1]), es[|es| - 1]);
    }
  }

  lemma {:induction false} UniqueForever(cs: seq<Condition>, es: seq<Change>)
    requires UniqueTypes(cs)
    ensures UniqueTypes(After(cs, es))
  {
    if es == [] {
    } else {
      var before := After(cs, es[..|es| - 1]);
      UniqueForever(cs, es[..|es| - 1]);
      match es[|es| - 1] {
        case SetTo(c) => SetKeepsUnique(before, c);
        case RemoveType(t) => RemoveKeepsUnique(before, t);
      }
    }
  }

  /** Index of the last change to type `t`; -1 when there is none. */
  function Last(es: seq<Change>, t: Text): (i: int)
    ensures -1 <= i < |es| && (i >= 0 ==> TypeOfChange(es[i]) == t)
    ensures forall k :: i < k < |es| ==> TypeOfChange(es[k]) != t
  {
    if es == [] then -1
    else if TypeOfChange(es[|es| - 1]) == t then |es| - 1
    else Last(es[..|es| - 1], t)
  }

  predicate Sets(es: seq<Change>, t: Text, s: ConditionStatus, k: int) {
    0 <= k < |es| && es[k].SetTo? && es[k].condition.conditionType == t && es[k].condition.status == s
  }

  /** Change `k` is the first of the current unbroken run of sets of type `t` with one status:
      nothing since has removed `t` or set another status, and the change of `t` before it did. */
  ghost predicate StartsRun(es: seq<Change>, t: Text, k: nat) {
    && k < |es| && es[k].SetTo? && es[k].condition.conditionType == t
    && var s := es[k].condition.status;
    && (forall j :: k <= j < |es| && TypeOfChange(es[j]) == t ==> Sets(es, t, s, j))
    && !Sets(es, t, s, Last(es[..k], t))
  }

  lemma StartsRunSnoc(es: seq<Change>, e: Change, t: Text, k: nat)
    requires k < |es|
    ensures TypeOfChange(e) != t ==> (StartsRun(es + [e], t, k) <==> StartsRun(es, t, k))
    ensures TypeOfChange(e) == t ==> (StartsRun(es + [e], t, k) <==>
                                      StartsRun(es, t, k) && Sets([e], t, es[k].condition.status, 0))
  {
    var more := es + [e];
    assert more[..k] == es[..k];
    assert forall j :: 0 <= j < |es| ==> more[j] == es[j];
    assert more[|es|] == e;
    if es[k].SetTo? {
      var s := es[k].condition.status;
      assert forall j :: j < |es| ==> (Sets(more, t, s, j) <==> Sets(es, t, s, j));
    }
  }

  /** What the history `es` says is stored for type `t`. */
  ghost predicate Explains(es: seq<Change>, t: Text, stored: Option<Condition>) {
    && (stored.Some? <==> exists k: nat :: StartsRun(es, t, k))
    && (stored.Some? <==> Last(es, t) >= 0 && es[Last(es, t)].SetTo?)
    && forall k: nat :: StartsRun(es, t, k) ==>
         && Last(es, t) >= 0 && es[Last(es, t)].SetTo?
         && stored == Some(es[Last(es, t)].condition.(
                        lastTransitionTime := es[k].condition.lastTransitionTime))
  }

  lemma ExplainsOther(es: seq<Change>, e: Change, t: Text, stored: Option<Condition>)
    requires Explains(es, t, stored) && TypeOfChange(e) != t
    ensures Explains(es + [e], t, stored)
  {
    assert (es + [e])[..|es|] == es;
    forall k: nat | k < |es| ensures StartsRun(es + [e], t, k) <==> StartsRun(es, t, k) {
      StartsRunSnoc(es, e, t, k);
    }
  }

  lemma ExplainsRemoved(es: seq<Change>, t: Text)
    ensures Explains(es + [RemoveType(t)], t, None)
  {
    var more := es + [RemoveType(t)];
    assert more[|es|] == RemoveType(t);
    forall k: nat ensures !StartsRun(more, t, k) {
      if k < |es| { StartsRunSnoc(es, RemoveType(t), t, k); }
    }
  }

  lemma ExplainsSet(es: seq<Change>, c: Condition, stored: Option<Condition>)
    requires Explains(es, c.conditionType, stored)
    ensures Explains(es + [SetTo(c)], c.conditionType, Some(Stamped(c, stored)))
  {
    var t, n := c.conditionType, |es|;
    var more := es + [SetTo(c)];
    assert more[..n] == es && more[n] == SetTo(c) && Last(more, t) == n;
    assert Sets(more, t, c.status, Last(es, t)) <==> stored.Some? && stored.value.status == c.status;
    assert StartsRun(more, t, n) <==> !(stored.Some? && stored.value.status == c.status);
    forall k: nat | k < n ensures StartsRun(more, t, k) <==>
                                  StartsRun(es, t, k) && es[k].condition.status == c.status {
      StartsRunSnoc(es, SetTo(c), t, k);
    }
    if stored.Some? && stored.value.status == c.status {
      var k: nat :| StartsRun(es, t, k);
      assert es[k].condition.status == c.status;
      assert StartsRun(more, t, k);
    }
  }

  /** The stored condition of a type is the last one set, stamped with the transition time of the
      first set in the current unbroken run; the type is absent exactly when there is no such run. */
  lemma {:induction false} TransitionTimeIsRunStart(es: seq<Change>, t: Text)
    ensures Explains(es, t, Get(After([], es), t))
  {
    if es == [] {
    } else {
      var n := |es| - 1;
      var e, before := es[n], es[..n];
      assert es == before + [e];
      TransitionTimeIsRunStart(before, t);
      match e {
        case SetTo(c) =>
          GetAfterSet(After([], before), c, t);
          if c.conditionType == t {
            ExplainsSet(before, c, Get(After([], before), t));
          } else {
            ExplainsOther(before, e, t, Get(After([], before), t));
          }
        case RemoveType(u) =>
          GetAfterRemove(After([], before), u, t);
          if u == t {
            ExplainsRemoved(before, t);
          } else {
            ExplainsOther(before, e, t, Get(After([], before), t));
          }
      }
    }
  }

  function SetsOf(cs: seq<Condition>): seq<Change> {
    seq(|cs|, i requires 0 <= i < |cs| => SetTo(cs[i]))
  }

  /** A duplicate-free list is the outcome of setting its conditions in order, so the history
      above may start from any such list. */
  lemma {:induction false} ListAsHistory(cs: seq<Condition>)
    requires UniqueTypes(cs)
    ensures After([], SetsOf(cs)) == cs
  {
    if cs == [] {
    } else {
      var n := |cs| - 1;
      ListAsHistory(cs[..n]);
      assert SetsOf(cs)[..n] == SetsOf(cs[..n]) && SetsOf(cs)[n] == SetTo(cs[n]);
      FindUnique(cs[..n], cs[n].conditionType, n);
    }
  }

  lemma {:induction false} AfterSplit(cs: seq<Condition>, es: seq<Change>, fs: seq<Change>)
    ensures After(cs, es + fs) == After(After(cs, es), fs)
    decreases |fs|
  {
    if fs == [] {
      assert es + fs == es;
    } else {
      var n := |fs| - 1;
      AfterSplit(cs, es, fs[..n]);
      assert (es + fs)[..|es| + n] == es + fs[..n];
    }
  }

  /** The same from any duplicate-free list. */
  lemma TransitionTimeFromList(cs: seq<Condition>, es: seq<Change>, t: Text)
    requires UniqueTypes(cs)
    ensures UniqueTypes(After(cs, es))
    ensures Explains(SetsOf(cs) + es, t, Get(After(cs, es), t))
  {
    UniqueForever(cs, es);
    ListAsHistory(cs);
    AfterSplit([], SetsOf(cs), es);
    TransitionTimeIsRunStart(SetsOf(cs) + es, t);
  }
}
