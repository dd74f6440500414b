/** `Vec::retain` and filters: what keeps the order of a list. */
module Subsequences {
  function Filter<T>(s: seq<T>, keep: T -> bool): seq<T> {
    if s == [] then []
    else Filter(s[..|s| - 1], keep) + if keep(s[|s| - 1]) then [s[|s| - 1]] else []
  }

  lemma {:induction false} FilterMembers<T>(s: seq<T>, keep: T -> bool)
    ensures forall x :: x in Filter(s, keep) <==> x in s && keep(x)
  {
    if s == [] {
    } else {
      FilterMembers(s[..|s| - 1], keep);
      assert s == s[..|s| - 1] + [s[|s| - 1]];
    }
  }

  /** `at` picks positions below `n` in increasing order. */
  ghost predicate Picks(at: seq<nat>, n: nat) {
    (forall k :: 0 <= k < |at| ==> at[k] < n) && forall j, k :: 0 <= j < k < |at| ==> at[j] < at[k]
  }

  /** `sub` is what `s` holds at the positions `at`, in order, and those are all the ones kept. */
  ghost predicate Selects<T(!new)>(s: seq<T>, keep: T -> bool, sub: seq<T>, at: seq<nat>) {
    && Picks(at, |s|) && |sub| == |at|
    && (forall k :: 0 <= k < |at| ==> sub[k] == s[at[k]])
    && forall i :: 0 <= i < |s| ==> (keep(s[i]) <==> i in at)
  }

  lemma SelectsSnoc<T(!new)>(s: seq<T>, keep: T -> bool, sub: seq<T>, at: seq<nat>, x: T)
    requires Selects(s, keep, sub, at)
    ensures keep(x) ==> Selects(s + [x], keep, sub + [x], at + [|s|])
    ensures !keep(x) ==> Selects(s + [x], keep, sub, at)
  {
    var more := at + [|s|];
    assert |s| !in at;
    assert forall i :: i in more <==> i in at || i == |s|;
  }

  /** A filter keeps order and multiplicity: it selects exactly the positions of the kept elements. */
  lemma {:induction false} FilterSelects<T(!new)>(s: seq<T>, keep: T -> bool) returns (at: seq<nat>)
    ensures Selects(s, keep, Filter(s, keep), at)
  {
    at := [];
    if s == [] {
    } else {
      var init, x := s[..|s| - 1], s[|s| - 1];
      at := FilterSelects(init, keep);
      SelectsSnoc(init, keep, Filter(init, keep), at, x);
      assert s == init + [x];
      if keep(x) {
        at := at + [|s| - 1];
      }
    }
  }

  lemma {:induction false} FilterTwice<T(!new)>(s: seq<T>, p: T -> bool, q: T -> bool, both: T -> bool)
    requires forall x :: both(x) <==> p(x) && q(x)
    ensures Filter(Filter(s, p), q) == Filter(s, both)
  {
    if s == [] {
    } else {
      var init, x := s[..|s| - 1], s[|s| - 1];
      FilterTwice(init, p, q, both);
      if p(x) {
        assert (Filter(init, p) + [x])[..|Filter(init, p)|] == Filter(init, p);
      } else {
        assert Filter(s, p) == Filter(init, p);
      }
    }
  }

  method Retain<T>(s: seq<T>, keep: T -> bool) returns (kept: seq<T>)
    ensures kept == Filter(s, keep)
  {
    kept := [];
    for i := 0 to |s|
      invariant kept == Filter(s[..i], keep)
    {
      assert s[..i + 1][..i] == s[..i];
      if keep(s[i]) {
        kept := kept + [s[i]];
      }
    }
    assert s[..|s|] == s;
  }
}
