/** The QPL cache blob: a 14-byte header and four length-prefixed text fields. */
module CacheBlob {
  import opened Bytes
  import opened Results

  const EXPIRE_SECONDS: nat := 8760 * 60 * 60
  const CACHE_VERSION: nat := 1
  const MULTICERTS: nat := 4

  /** Text short enough for its length to fit the 32-bit prefix. */
  type Field = s: Str | |s| < U32_LIMIT witness []

  datatype Blob = Blob(expiration: U64, cpuSvn: Field, tcbInfo: Field, certChain: Field, pckCerts: Field)

  // ---------- the format ----------

  function Header(expiration: U64): (s: seq<Byte>)
    ensures |s| == 14
  {
    LeBytes(CACHE_VERSION, 2) + LeBytes(MULTICERTS, 4) + LeBytes(expiration, 8)
  }

  function FieldBytes(f: seq<Byte>): (s: seq<Byte>)
    ensures |s| == 4 + |f|
  {
    LeBytes(|f|, 4) + f
  }

  function AllFields(fs: seq<seq<Byte>>): seq<Byte> {
    if fs == [] then [] else FieldBytes(fs[0]) + AllFields(fs[1..])
  }

  function FieldsOf(b: Blob): (fs: seq<Field>)
    ensures |fs| == 4
  {
    [b.cpuSvn, b.tcbInfo, b.certChain, b.pckCerts]
  }

  function Encode(b: Blob): seq<Byte> {
    Header(b.expiration) + AllFields(FieldsOf(b))
  }

  /** `data` is a well-formed blob. */
  ghost predicate WellFormed(data: seq<Byte>) {
    exists b: Blob :: Encode(b) == data
  }

  ghost function Decoded(data: seq<Byte>): (b: Blob)
    requires WellFormed(data)
    ensures Encode(b) == data
  {
    var b: Blob :| Encode(b) == data;
    b
  }

  // ---------- no blob is a prefix of another ----------

  lemma PrefixSplit(a: seq<Byte>, restA: seq<Byte>, b: seq<Byte>, restB: seq<Byte>)
    requires a + restA == b + restB && |a| == |b|
    ensures a == b && restA == restB
  {
    assert (a + restA)[..|a|] == a && (b + restB)[..|a|] == b;
    assert (a + restA)[|a|..] == restA && (b + restB)[|a|..] == restB;
  }

  lemma FieldPrefix(f: Field, restF: seq<Byte>, g: Field, restG: seq<Byte>)
    requires FieldBytes(f) + restF == FieldBytes(g) + restG
    ensures f == g && restF == restG
  {
    assert LeBytes(|f|, 4) + (f + restF) == FieldBytes(f) + restF;
    assert LeBytes(|g|, 4) + (g + restG) == FieldBytes(g) + restG;
    PrefixSplit(LeBytes(|f|, 4), f + restF, LeBytes(|g|, 4), g + restG);
    Limits();
    LeValueOfBytes(|f|, 4);
    LeValueOfBytes(|g|, 4);
    PrefixSplit(f, restF, g, restG);
  }

  lemma HeaderPrefix(e: U64, restE: seq<Byte>, f: U64, restF: seq<Byte>)
    requires Header(e) + restE == Header(f) + restF
    ensures e == f && restE == restF
  {
    PrefixSplit(Header(e), restE, Header(f), restF);
    assert Header(e)[6..] == LeBytes(e, 8) && Header(f)[6..] == LeBytes(f, 8);
    Limits();
    LeValueOfBytes(e, 8);
    LeValueOfBytes(f, 8);
  }

  lemma {:induction false} AllFieldsPrefix(fs: seq<Field>, rest: seq<Byte>, gs: seq<Field>)
    requires |fs| == |gs| && AllFields(fs) + rest == AllFields(gs)
    ensures fs == gs && rest == []
  {
    if fs == [] {
    } else {
      assert FieldBytes(fs[0]) + (AllFields(fs[1..]) + rest) == FieldBytes(gs[0]) + AllFields(gs[1..]);
      FieldPrefix(fs[0], AllFields(fs[1..]) + rest, gs[0], AllFields(gs[1..]));
      AllFieldsPrefix(fs[1..], rest, gs[1..]);
      assert fs == [fs[0]] + fs[1..] && gs == [gs[0]] + gs[1..];
    }
  }

  /** The set of well-formed blobs is prefix-free and each has one decoding. */
  lemma PrefixFree(a: Blob, b: Blob, rest: seq<Byte>)
    requires Encode(a) + rest == Encode(b)
    ensures a == b && rest == []
  {
    var fs, gs := AllFields(FieldsOf(a)), AllFields(FieldsOf(b));
    Regroup(Header(a.expiration), fs, rest);
    HeaderPrefix(a.expiration, fs + rest, b.expiration, gs);
    AllFieldsPrefix(FieldsOf(a), rest, FieldsOf(b));
    SameFields(a, b);
  }

  lemma Regroup(a: seq<Byte>, b: seq<Byte>, c: seq<Byte>)
    ensures a + b + c == a + (b + c)
  {
  }

  lemma SameFields(a: Blob, b: Blob)
    requires FieldsOf(a) == FieldsOf(b) && a.expiration == b.expiration
    ensures a == b
  {
    assert FieldsOf(a)[0] == FieldsOf(b)[0] && FieldsOf(a)[1] == FieldsOf(b)[1];
    assert FieldsOf(a)[2] == FieldsOf(b)[2] && FieldsOf(a)[3] == FieldsOf(b)[3];
  }

  lemma EncodeInjective(a: Blob, b: Blob)
    requires Encode(a) == Encode(b)
    ensures a == b
  {
    assert Encode(a) + [] == Encode(b);
    PrefixFree(a, b, []);
  }

  /** Nothing can be cut from a well-formed blob or added to it: any two well-formed byte strings
      of which one is a prefix of the other are equal. */
  lemma NoTruncationOrExtension(data: seq<Byte>, longer: seq<Byte>)
    requires data <= longer && WellFormed(data) && WellFormed(longer)
    ensures data == longer
  {
    assert longer == data + longer[|data|..];
    PrefixFree(Decoded(data), Decoded(longer), longer[|data|..]);
  }

  // ---------- the format, written out ----------

  /** A text after its length in four bytes. */
  function Prefixed(f: seq<Byte>): seq<Byte> { LeBytes(|f|, 4) + f }

  lemma HeaderIs(expiration: U64)
    ensures Header(expiration) == [1, 0, 4, 0, 0, 0] + LeBytes(expiration, 8)
  {
    assert LeBytes(0, 1) == [0] && LeBytes(0, 2) == [0] + LeBytes(0, 1) && LeBytes(0, 3) == [0] + LeBytes(0, 2);
    assert LeBytes(1, 2) == [1] + LeBytes(0, 1) && LeBytes(4, 4) == [4] + LeBytes(0, 3);
  }

  /** Version 1 in two bytes, flags 4 in four, the expiration in eight, then CPU SVN, TCB Info, issuer
      chain and certificates; every number has its least significant byte first. */
  lemma FormatIs(b: Blob)
    ensures Encode(b) == [1, 0, 4, 0, 0, 0] + LeBytes(b.expiration, 8) + Prefixed(b.cpuSvn) + Prefixed(b.tcbInfo) +
                         Prefixed(b.certChain) + Prefixed(b.pckCerts)
  {
    HeaderIs(b.expiration);
    BuiltFields(b);
  }

  /** So every accepted byte string starts with those six bytes, and byte `i` of a number counts the
      `i`-th power of 256. */
  lemma AcceptedBytes(data: seq<Byte>, i: nat)
    requires WellFormed(data)
    ensures |data| >= 18 && data[..6] == [1, 0, 4, 0, 0, 0]
    ensures i < 8 ==> data[6 + i] == Decoded(data).expiration / Pow256(i) % 256
    ensures i < 4 ==> data[14 + i] == |Decoded(data).cpuSvn| / Pow256(i) % 256
  {
    var b := Decoded(data);
    HeaderIs(b.expiration);
    assert data == Header(b.expiration) + (FieldBytes(b.cpuSvn) + AllFields(FieldsOf(b)[1..]));
    assert data[..14] == Header(b.expiration) && data[14..18] == LeBytes(|b.cpuSvn|, 4);
    assert data[..6] == data[..14][..6];
    if i < 8 {
      LeByteAt(b.expiration, 8, i);
      assert data[6 + i] == data[..14][6 + i];
    }
    if i < 4 {
      LeByteAt(|b.cpuSvn|, 4, i);
      assert data[14 + i] == data[14..18][i];
    }
  }

  // ---------- build_cache_blob ----------

  datatype BuildError = ClockBeforeEpoch | FieldTooLarge

  /** Seconds since the epoch, as the platform's signed clock can represent them. */
  type UnixTime = t: int | -0x8000_0000_0000_0000 <= t < 0x8000_0000_0000_0000

  method GetExpirationTime(clock: UnixTime) returns (r: Result<U64, BuildError>)
    ensures r == if clock < 0 then Err(ClockBeforeEpoch) else Ok(clock + EXPIRE_SECONDS)
  {
    if clock < 0 {
      return Err(ClockBeforeEpoch);
    }
    return Ok(clock + EXPIRE_SECONDS);
  }

  /** The closure `write_field`: appends one length-prefixed field. */
  method WriteField(buf: seq<Byte>, data: Str) returns (ok: bool, out: seq<Byte>)
    ensures ok <==> |data| < U32_LIMIT
    ensures out == if ok then buf + FieldBytes(data) else buf
  {
    if |data| >= U32_LIMIT {
      return false, buf;
    }
    out := buf + LeBytes(|data|, 4);
    out := out + data;
    assert out == buf + FieldBytes(data);
    return true, out;
  }

  /** Four fields read one after the other are the fields of the blob made of them. */
  lemma FourFields(b: Blob, rest1: seq<Byte>, rest2: seq<Byte>, rest3: seq<Byte>, rest4: seq<Byte>, rest: seq<Byte>)
    requires rest1 == FieldBytes(b.cpuSvn) + rest2 && rest2 == FieldBytes(b.tcbInfo) + rest3
    requires rest3 == FieldBytes(b.certChain) + rest4 && rest4 == FieldBytes(b.pckCerts) + rest
    ensures rest1 == AllFields(FieldsOf(b)) + rest
  {
    var fs := FieldsOf(b);
    assert fs[1..][1..] == fs[2..] && fs[2..][1..] == fs[3..] && fs[3..][1..] == [];
    assert rest4 == AllFields(fs[3..]) + rest;
    assert rest3 == FieldBytes(fs[2]) + AllFields(fs[3..]) + rest == AllFields(fs[2..]) + rest;
    assert rest2 == FieldBytes(fs[1]) + AllFields(fs[2..]) + rest == AllFields(fs[1..]) + rest;
  }

  lemma BuiltFields(b: Blob)
    ensures Encode(b) == Header(b.expiration) + FieldBytes(b.cpuSvn) + FieldBytes(b.tcbInfo) +
                         FieldBytes(b.certChain) + FieldBytes(b.pckCerts)
  {
    AllFour(b.cpuSvn, b.tcbInfo, b.certChain, b.pckCerts);
  }

  lemma AllFour(a: Field, b: Field, c: Field, d: Field)
    ensures AllFields([a, b, c, d]) == FieldBytes(a) + FieldBytes(b) + FieldBytes(c) + FieldBytes(d)
  {
    assert [a, b, c, d][1..] == [b, c, d] && [b, c, d][1..] == [c, d] && [c, d][1..] == [d] && [d][1..] == [];
    assert AllFields([d]) == FieldBytes(d);
    assert AllFields([c, d]) == FieldBytes(c) + FieldBytes(d);
    assert AllFields([b, c, d]) == FieldBytes(b) + AllFields([c, d]);
  }

  /** Succeeds exactly when the clock is not before the epoch and every field fits; the bytes then
      decode to the four fields and to the expiration that is returned beside them. */
  method BuildCacheBlob(clock: UnixTime, cpuSvn: Str, tcbInfo: Str, certChain: Str, pckCerts: Str)
    returns (r: Result<(seq<Byte>, U64), BuildError>)
    ensures r == Err(ClockBeforeEpoch) <==> clock < 0
    ensures r == Err(FieldTooLarge) <==>
            clock >= 0 && exists f :: f in [cpuSvn, tcbInfo, certChain, pckCerts] && |f| >= U32_LIMIT
    ensures r.Ok? ==> r.value.1 == clock + 31_536_000
    ensures r.Ok? ==> WellFormed(r.value.0)
    ensures r.Ok? ==> Decoded(r.value.0) == Blob(r.value.1, cpuSvn, tcbInfo, certChain, pckCerts)
  {
    var time := GetExpirationTime(clock);
    if time.Err? {
      return Err(time.error);
    }
    var expiration := time.value;
    var cacheData: seq<Byte> := [];
    cacheData := cacheData + LeBytes(CACHE_VERSION, 2);
    cacheData := cacheData + LeBytes(MULTICERTS, 4);
    cacheData := cacheData + LeBytes(expiration, 8);
    assert cacheData == Header(expiration);
    var ok;
    ok, cacheData := WriteField(cacheData, cpuSvn);
    if !ok { assert cpuSvn in [cpuSvn, tcbInfo, certChain, pckCerts]; return Err(FieldTooLarge); }
    ok, cacheData := WriteField(cacheData, tcbInfo);
    if !ok { assert tcbInfo in [cpuSvn, tcbInfo, certChain, pckCerts]; return Err(FieldTooLarge); }
    ok, cacheData := WriteField(cacheData, certChain);
    if !ok { assert certChain in [cpuSvn, tcbInfo, certChain, pckCerts]; return Err(FieldTooLarge); }
    ok, cacheData := WriteField(cacheData, pckCerts);
    if !ok { assert pckCerts in [cpuSvn, tcbInfo, certChain, pckCerts]; return Err(FieldTooLarge); }
    ghost var blob := Blob(expiration, cpuSvn, tcbInfo, certChain, pckCerts);
    BuiltFields(blob);
    EncodeInjective(blob, Decoded(cacheData));
    return Ok((cacheData, expiration));
  }

  // ---------- parse_cache_blob ----------

  datatype ParseError = Truncated | BadVersion(version: nat) | BadFlags(flags: nat) | BadUtf8 | Trailing(count: nat)

  /** The nested function `take`: moves the cursor over the next `len` bytes. */
  method Take(rest: seq<Byte>, len: nat) returns (r: Result<seq<Byte>, ParseError>, tail: seq<Byte>)
    ensures r.Ok? <==> |rest| >= len
    ensures r.Ok? ==> |r.value| == len && rest == r.value + tail
    ensures r.Err? ==> r.error == Truncated && tail == rest
  {
    if |rest| < len {
      return Err(Truncated), rest;
    }
    return Ok(rest[..len]), rest[len..];
  }

  ghost predicate StartsWithField(rest: seq<Byte>, f: Field, tail: seq<Byte>) {
    rest == FieldBytes(f) + tail
  }

  /** What follows the four bytes read as the length of a field. */
  lemma FieldAhead(prefix: seq<Byte>, afterPrefix: seq<Byte>, f: Field, t: seq<Byte>)
    requires |prefix| == 4 && StartsWithField(prefix + afterPrefix, f, t)
    ensures LeValue(prefix) == |f| && afterPrefix == f + t
  {
    Limits();
    assert prefix + afterPrefix == LeBytes(|f|, 4) + (f + t);
    PrefixSplit(prefix, afterPrefix, LeBytes(|f|, 4), f + t);
    LeValueOfBytes(|f|, 4);
  }

  /** The nested function `field`: reads one length-prefixed field. It fails on exactly the inputs
      that do not start with one. */
  method ReadField(rest: seq<Byte>) returns (r: Result<Field, ParseError>, tail: seq<Byte>)
    ensures r.Ok? ==> StartsWithField(rest, r.value, tail)
    ensures r.Err? ==> forall f: Field, t: seq<Byte> :: !StartsWithField(rest, f, t)
    ensures r.Err? ==> r.error == Truncated || r.error == BadUtf8
  {
    var prefix, afterPrefix := Take(rest, 4);
    if prefix.Err? {
      return Err(prefix.error), rest;
    }
    var len := LeValue(prefix.value);
    var bytes, afterField := Take(afterPrefix, len);
    Limits();
    LeBytesOfValue(prefix.value);
    forall f: Field, t: seq<Byte> | StartsWithField(rest, f, t)
      ensures bytes.Ok? && bytes.value == f
    {
      FieldAhead(prefix.value, afterPrefix, f, t);
      PrefixSplit(bytes.value, afterField, f, t);
    }
    if bytes.Err? {
      return Err(bytes.error), rest;
    }
    if !ValidUtf8(bytes.value) {
      return Err(BadUtf8), rest;
    }
    assert rest == FieldBytes(bytes.value) + afterField;
    return Ok(bytes.value), afterField;
  }

  /** The cursor stands before exactly `k` fields. */
  ghost predicate HasFields(rest: seq<Byte>, k: nat) {
    exists fs: seq<Field> :: |fs| == k && AllFields(fs) == rest
  }

  /** Reading a field leaves the cursor before one field less. */
  lemma AfterField(rest: seq<Byte>, f: Field, tail: seq<Byte>, k: nat)
    requires k > 0 && StartsWithField(rest, f, tail)
    ensures HasFields(rest, k) <==> HasFields(tail, k - 1)
  {
    if fs: seq<Field> :| |fs| == k && AllFields(fs) == rest {
      FieldPrefix(f, tail, fs[0], AllFields(fs[1..]));
      assert |fs[1..]| == k - 1;
    }
    if fs: seq<Field> :| |fs| == k - 1 && AllFields(fs) == tail {
      assert ([f] + fs)[1..] == fs;
      assert |[f] + fs| == k && AllFields([f] + fs) == rest;
    }
  }

  /** A cursor that does not start with a field is not before one. */
  lemma NoField(rest: seq<Byte>, k: nat)
    requires k > 0 && forall f: Field, t: seq<Byte> :: !StartsWithField(rest, f, t)
    ensures !HasFields(rest, k)
  {
    forall fs: seq<Field> | |fs| == k ensures AllFields(fs) != rest {
      assert !StartsWithField(rest, fs[0], AllFields(fs[1..]));
    }
  }

  /** Data with a good header is well formed exactly when four fields follow. */
  lemma FieldsAfterHeader(data: seq<Byte>, time: U64, rest: seq<Byte>)
    requires data == Header(time) + rest
    ensures WellFormed(data) <==> HasFields(rest, 4)
  {
    if b: Blob :| Encode(b) == data {
      HeaderPrefix(time, rest, b.expiration, AllFields(FieldsOf(b)));
    }
    if fs: seq<Field> :| |fs| == 4 && AllFields(fs) == rest {
      var b := Blob(time, fs[0], fs[1], fs[2], fs[3]);
      assert FieldsOf(b) == fs;
      assert Encode(b) == data;
    }
  }

  /** The four fields after the header, and the check that nothing follows them. */
  method ReadFields(expiration: U64, fields: seq<Byte>) returns (r: Result<Blob, ParseError>)
    ensures r.Ok? <==> HasFields(fields, 4)
    ensures r.Ok? ==> fields == AllFields(FieldsOf(r.value)) && r.value.expiration == expiration
    ensures r.Err? && r.error.Trailing? ==>
              exists b: Blob :: b.expiration == expiration && TrailAfter(fields, b, r.error)
  {
    var f1, f2, f3, f4;
    var rest := fields;
    f1, rest := ReadField(rest);
    if f1.Err? { NoField(fields, 4); return Err(f1.error); }
    AfterField(fields, f1.value, rest, 4);
    ghost var rest2 := rest;
    f2, rest := ReadField(rest);
    if f2.Err? { NoField(rest2, 3); return Err(f2.error); }
    AfterField(rest2, f2.value, rest, 3);
    ghost var rest3 := rest;
    f3, rest := ReadField(rest);
    if f3.Err? { NoField(rest3, 2); return Err(f3.error); }
    AfterField(rest3, f3.value, rest, 2);
    ghost var rest4 := rest;
    f4, rest := ReadField(rest);
    if f4.Err? { NoField(rest4, 1); return Err(f4.error); }
    AfterField(rest4, f4.value, rest, 1);
    var blob := Blob(expiration, f1.value, f2.value, f3.value, f4.value);
    FourFields(blob, fields, rest2, rest3, rest4, rest);
    if rest != [] {
      assert TrailAfter(fields, blob, Trailing(|rest|));
      return Err(Trailing(|rest|));
    }
    ghost var none: seq<Field> := [];
    assert |none| == 0 && AllFields(none) == rest;
    return Ok(blob);
  }

  ghost predicate TrailAfter(fields: seq<Byte>, b: Blob, e: ParseError) {
    e.Trailing? && 0 < e.count <= |fields| && fields[..|fields| - e.count] == AllFields(FieldsOf(b))
  }

  /** Accepts exactly the well-formed blobs and returns their one decoding: parsing a built blob
      gives back what went in, and rebuilding an accepted blob gives back its bytes. Trailing bytes
      are reported only after a whole blob. */
  method ParseCacheBlob(data: seq<Byte>) returns (r: Result<Blob, ParseError>)
    ensures r.Ok? <==> WellFormed(data)
    ensures r.Ok? ==> Encode(r.value) == data && r.value == Decoded(data)
    ensures r.Err? && r.error.Trailing? ==> 0 < r.error.count <= |data|
    ensures r.Err? && r.error.Trailing? ==> WellFormed(data[..|data| - r.error.count])
  {
    var version, flags, expiration;
    var rest := data;
    version, rest := Take(rest, 2);
    if version.Err? { ShortIsMalformed(data); return Err(version.error); }
    flags, rest := Take(rest, 4);
    if flags.Err? { ShortIsMalformed(data); return Err(flags.error); }
    expiration, rest := Take(rest, 8);
    if expiration.Err? { ShortIsMalformed(data); return Err(expiration.error); }
    HeaderOfData(data, version.value, flags.value, expiration.value, rest);
    if LeValue(version.value) != CACHE_VERSION {
      return Err(BadVersion(LeValue(version.value)));
    }
    if LeValue(flags.value) != MULTICERTS {
      return Err(BadFlags(LeValue(flags.value)));
    }
    var time: U64 := LeValue(expiration.value);
    FieldsAfterHeader(data, time, rest);
    r := ReadFields(time, rest);
    if r.Ok? {
      EncodeInjective(r.value, Decoded(data));
    } else if r.error.Trailing? {
      ghost var b: Blob :| b.expiration == time && TrailAfter(rest, b, r.error);
      assert data[..|data| - r.error.count] == Encode(b);
    }
  }

  lemma ShortIsMalformed(data: seq<Byte>)
    requires |data| < 14
    ensures !WellFormed(data)
  {
  }

  lemma HeaderNested(expiration: U64, rest: seq<Byte>)
    ensures Header(expiration) + rest ==
            LeBytes(CACHE_VERSION, 2) + (LeBytes(MULTICERTS, 4) + (LeBytes(expiration, 8) + rest))
  {
  }

  lemma WellFormedHeader(b: Blob, version: seq<Byte>, flags: seq<Byte>, tail: seq<Byte>)
    requires |version| == 2 && |flags| == 4
    requires Encode(b) == version + (flags + tail)
    ensures LeValue(version) == CACHE_VERSION && LeValue(flags) == MULTICERTS
  {
    var rest := LeBytes(b.expiration, 8) + AllFields(FieldsOf(b));
    HeaderNested(b.expiration, AllFields(FieldsOf(b)));
    PrefixSplit(version, flags + tail, LeBytes(CACHE_VERSION, 2), LeBytes(MULTICERTS, 4) + rest);
    PrefixSplit(flags, tail, LeBytes(MULTICERTS, 4), rest);
    Limits();
    LeValueOfBytes(CACHE_VERSION, 2);
    LeValueOfBytes(MULTICERTS, 4);
  }

  /** The values of the three header fields decide whether the header is the one a blob has. */
  lemma HeaderOfData(data: seq<Byte>, version: seq<Byte>, flags: seq<Byte>, expiration: seq<Byte>, rest: seq<Byte>)
    requires |version| == 2 && |flags| == 4 && |expiration| == 8
    requires data == version + (flags + (expiration + rest))
    ensures WellFormed(data) ==> LeValue(version) == CACHE_VERSION && LeValue(flags) == MULTICERTS
    ensures LeValue(expiration) < U64_LIMIT
    ensures LeValue(version) == CACHE_VERSION && LeValue(flags) == MULTICERTS ==>
              data == Header(LeValue(expiration)) + rest
  {
    Limits();
    LeBytesOfValue(version);
    LeBytesOfValue(flags);
    LeBytesOfValue(expiration);
    HeaderNested(LeValue(expiration), rest);
    if b: Blob :| Encode(b) == data {
      WellFormedHeader(b, version, flags, expiration + rest);
    }
  }
}
