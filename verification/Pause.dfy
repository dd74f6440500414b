/** Rate limiting by Intel PCS: the shared pause and the Retry-After header. Times are in
    nanoseconds on the monotonic clock. */
module Pause {
  import opened Bytes
  import opened Results
  import opened Text

  const SECOND: nat := 1_000_000_000

  // ---------- PcsPause ----------

  /** The later of the pause so far and `t`. */
  function Extended(until: Option<nat>, t: nat): Option<nat> {
    if until.Some? && until.value > t then until else Some(t)
  }

  function RemainingAt(until: Option<nat>, now: nat): Option<nat> {
    if until.Some? && until.value > now then Some(until.value - now) else None
  }

  class PcsPause {
    var until: Option<nat>

    constructor ()
      ensures until == None
    {
      until := None;
    }

    method Pause(now: nat, duration: nat)
      modifies this
      ensures until == Extended(old(until), now + duration)
    {
      var t := now + duration;
      match until
      case None => until := Some(t);
      case Some(current) => until := Some(if current > t then current else t);
    }

    method Remaining(now: nat) returns (r: Option<nat>)
      ensures r == RemainingAt(until, now)
    {
      r := None;
      if until.Some? && until.value > now {
        r := Some(until.value - now);
      }
    }
  }

  /** One call of `pause`; nothing below depends on the calls coming in the order of `now`. */
  datatype Call = Call(now: nat, duration: nat)

  function AfterCalls(calls: seq<Call>): Option<nat> {
    if calls == [] then None
    else
      var last := calls[|calls| - 1];
      Extended(AfterCalls(calls[..|calls| - 1]), last.now + last.duration)
  }

  ghost predicate IsLatest(t: nat, calls: seq<Call>) {
    && (exists c :: c in calls && t == c.now + c.duration)
    && (forall c :: c in calls ==> c.now + c.duration <= t)
  }

  /** The pause ends at the latest end any call asked for. */
  lemma {:induction false} PauseIsMaximum(calls: seq<Call>)
    ensures calls == [] <==> AfterCalls(calls) == None
    ensures calls != [] ==> IsLatest(AfterCalls(calls).value, calls)
  {
    if calls == [] {
    } else {
      var init, last := calls[..|calls| - 1], calls[|calls| - 1];
      PauseIsMaximum(init);
      assert calls == init + [last];
      assert last in calls;
      if init != [] {
        var c :| c in init && AfterCalls(init).value == c.now + c.duration;
        assert c in calls;
      }
    }
  }

  /** The order in which the lock was taken does not matter. */
  lemma PauseOrderIndependent(a: seq<Call>, b: seq<Call>)
    requires multiset(a) == multiset(b)
    ensures AfterCalls(a) == AfterCalls(b)
  {
    PauseIsMaximum(a);
    PauseIsMaximum(b);
    assert forall c :: c in a <==> c in multiset(a);
    assert forall c :: c in b <==> c in multiset(b);
    if a != [] {
      assert a[0] in multiset(a);
    }
    if b != [] {
      assert b[0] in multiset(b);
    }
  }

  /** Requests are held back at `now` exactly while some call's pause has not ended, and for as
      long as the longest-lasting one. */
  lemma RemainingExact(calls: seq<Call>, now: nat)
    ensures RemainingAt(AfterCalls(calls), now) == None <==> forall c :: c in calls ==> c.now + c.duration <= now
    ensures RemainingAt(AfterCalls(calls), now).Some? ==>
              IsLatest(now + RemainingAt(AfterCalls(calls), now).value, calls)
  {
  }

  // ---------- parse_retry_after ----------

  const DEFAULT_RETRY_AFTER: nat := 60
  const MAX_RETRY_AFTER: nat := 60 * 60

  /** White space among the characters a header value can hold. */
  predicate IsSpace(b: Byte) {
    9 <= b <= 13 || b == 32
  }

  lemma SpacesAre(b: Byte)
    ensures IsSpace(b) <==> b in {0x09, 0x0A, 0x0B, 0x0C, 0x0D, 0x20}
  {
  }

  predicate AllSpace(s: seq<Byte>) {
    forall i :: 0 <= i < |s| ==> IsSpace(s[i])
  }

  function TrimStart(s: seq<Byte>): seq<Byte> {
    if s != [] && IsSpace(s[0]) then TrimStart(s[1..]) else s
  }

  function TrimEnd(s: seq<Byte>): seq<Byte> {
    if s != [] && IsSpace(s[|s| - 1]) then TrimEnd(s[..|s| - 1]) else s
  }

  function Trim(s: seq<Byte>): seq<Byte> {
    TrimEnd(TrimStart(s))
  }

  /** In seconds. */
  function ParseRetryAfter(header: Option<seq<Byte>>): nat {
    var parsed := if header.Some? then ParseU64(Trim(header.value)) else None;
    var seconds := if parsed.Some? then parsed.value else DEFAULT_RETRY_AFTER;
    if seconds < MAX_RETRY_AFTER then seconds else MAX_RETRY_AFTER
  }

  lemma {:induction false} TrimStartOf(before: seq<Byte>, core: seq<Byte>)
    requires AllSpace(before) && (core != [] ==> !IsSpace(core[0]))
    ensures TrimStart(before + core) == core
  {
    if before == [] {
      assert before + core == core;
    } else {
      TrimStartOf(before[1..], core);
      assert (before + core)[1..] == before[1..] + core;
    }
  }

  lemma {:induction false} TrimEndOf(core: seq<Byte>, after: seq<Byte>)
    requires AllSpace(after) && core != [] && !IsSpace(core[|core| - 1])
    ensures TrimEnd(core + after) == core
  {
    if after == [] {
      assert core + after == core;
    } else {
      TrimEndOf(core, after[..|after| - 1]);
      assert (core + after)[..|core + after| - 1] == core + after[..|after| - 1];
    }
  }

  lemma {:induction false} TrimStartSplits(s: seq<Byte>) returns (before: seq<Byte>)
    ensures AllSpace(before) && s == before + TrimStart(s)
  {
    if s != [] && IsSpace(s[0]) {
      var rest := TrimStartSplits(s[1..]);
      before := [s[0]] + rest;
    } else {
      before := [];
    }
  }

  lemma {:induction false} TrimEndSplits(s: seq<Byte>) returns (after: seq<Byte>)
    ensures AllSpace(after) && s == TrimEnd(s) + after
  {
    if s != [] && IsSpace(s[|s| - 1]) {
      var rest := TrimEndSplits(s[..|s| - 1]);
      after := rest + [s[|s| - 1]];
    } else {
      after := [];
    }
  }

  /** The header is delta-seconds: decimal text between white space, with a plus sign and leading
      zeros allowed, of a number below 2^64. */
  ghost predicate DeltaSeconds(header: seq<Byte>, before: seq<Byte>, plus: bool, zeros: nat, n: U64, after: seq<Byte>) {
    && AllSpace(before) && AllSpace(after)
    && header == before + ((if plus then [PLUS] else []) + Zeros(zeros) + Decimal(n)) + after
  }

  lemma DeltaSecondsParse(header: seq<Byte>, before: seq<Byte>, plus: bool, zeros: nat, n: U64, after: seq<Byte>)
    requires DeltaSeconds(header, before, plus, zeros, n, after)
    ensures ParseU64(Trim(header)) == Some(n)
  {
    var core := (if plus then [PLUS] else []) + Zeros(zeros) + Decimal(n);
    assert core[|core| - 1] == Decimal(n)[|Decimal(n)| - 1];
    assert !IsSpace(core[0]);
    assert header == before + (core + after);
    TrimStartOf(before, core + after);
    TrimEndOf(core, after);
    WrittenParses(core, plus, zeros, n);
  }

  /** The delay is min(n, 3600) for delta-seconds n below 2^64 and 60 for every other header and
      for none: so it is never more than an hour. */
  lemma RetryAfterExact(header: seq<Byte>)
    ensures forall before: seq<Byte>, plus: bool, zeros: nat, n: U64, after: seq<Byte> ::
              DeltaSeconds(header, before, plus, zeros, n, after) ==>
                ParseRetryAfter(Some(header)) == if n < 3600 then n else 3600
    ensures (forall before: seq<Byte>, plus: bool, zeros: nat, n: U64, after: seq<Byte> ::
               !DeltaSeconds(header, before, plus, zeros, n, after)) ==> ParseRetryAfter(Some(header)) == 60
    ensures ParseRetryAfter(None) == 60
  {
    forall before: seq<Byte>, plus: bool, zeros: nat, n: U64, after: seq<Byte> |
      DeltaSeconds(header, before, plus, zeros, n, after)
      ensures ParseU64(Trim(header)) == Some(n)
    {
      DeltaSecondsParse(header, before, plus, zeros, n, after);
    }
    if ParseU64(Trim(header)).Some? {
      var n := ParseU64(Trim(header)).value;
      ParsedWasWritten(Trim(header));
      var plus: bool, zeros: nat :| WrittenU64(Trim(header), plus, zeros, n);
      var before := TrimStartSplits(header);
      var after := TrimEndSplits(TrimStart(header));
      assert header == before + Trim(header) + after;
      assert DeltaSeconds(header, before, plus, zeros, n, after);
    }
  }

  /** A pause recorded for a 429 response. */
  ghost predicate FromResponse(c: Call) {
    exists header :: c.duration == ParseRetryAfter(header) * SECOND
  }

  /** No pause outlives the last 429 by more than an hour. */
  lemma PauseIsBounded(calls: seq<Call>, last: nat, now: nat)
    requires forall c :: c in calls ==> FromResponse(c) && c.now <= last
    requires RemainingAt(AfterCalls(calls), now).Some?
    ensures now < last + 3600 * SECOND
    ensures RemainingAt(AfterCalls(calls), now).value <= last + 3600 * SECOND - now
  {
  }
}
