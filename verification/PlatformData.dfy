/** Validation and fingerprinting of platform-data secrets, as the registrar does it. */
module PlatformData {
  import opened Bytes
  import opened Results
  import opened Text

  /** The contents of one key of a Secret. A Rust allocation holds at most `isize::MAX` bytes. */
  type ByteString = s: seq<Byte> | |s| < 0x8000_0000_0000_0000

  type Line = s: Str | |s| < 0x8000_0000_0000_0000 witness []

  datatype Request = Request(platformManifest: Line, pceId: Line, cpuSvn: Line)

  /** The names of secret keys and JSON members that the programs use, and all others. */
  datatype Key = PlatformManifest | PceId | CpuSvn | PceSvn | QeId | EncPpid | OtherKey(name: string)

  type SecretData = map<Key, ByteString>

  const QE_ID_HEX_LEN: nat := 32
  const CPU_SVN_HEX_LEN: nat := 32
  const PCE_ID_HEX_LEN: nat := 4
  const MANIFEST_MAX_HEX_LEN: nat := 65535 * 2

  // ---------- prepare_registration ----------

  datatype PrepareError =
    BadName | MissingField(key: Key) | NotUtf8(key: Key) | BadCpuSvn | BadPceId | BadManifest

  function FromSecretData(data: SecretData): (r: Result<Request, PrepareError>)
    ensures r.Ok? <==> forall k :: k in {PlatformManifest, PceId, CpuSvn} ==>
                         k in data && ValidUtf8(data[k])
    ensures r.Err? ==> r.error.MissingField? || r.error.NotUtf8?
  {
    if PlatformManifest !in data then Err(MissingField(PlatformManifest))
    else if PceId !in data then Err(MissingField(PceId))
    else if CpuSvn !in data then Err(MissingField(CpuSvn))
    else if !ValidUtf8(data[PlatformManifest]) then Err(NotUtf8(PlatformManifest))
    else if !ValidUtf8(data[PceId]) then Err(NotUtf8(PceId))
    else if !ValidUtf8(data[CpuSvn]) then Err(NotUtf8(CpuSvn))
    else Ok(Request(data[PlatformManifest], data[PceId], data[CpuSvn]))
  }

  predicate ValidManifest(m: seq<Byte>) {
    m != [] && |m| <= MANIFEST_MAX_HEX_LEN && |m| % 2 == 0 && AllHex(m)
  }

  function PrepareRegistration(name: seq<Byte>, data: SecretData): (r: Result<Request, PrepareError>) {
    if !IsFixedLenHex(name, QE_ID_HEX_LEN) then Err(BadName)
    else
      var request := FromSecretData(data);
      if request.Err? then request
      else if !IsFixedLenHex(request.value.cpuSvn, CPU_SVN_HEX_LEN) then Err(BadCpuSvn)
      else if !IsFixedLenHex(request.value.pceId, PCE_ID_HEX_LEN) then Err(BadPceId)
      else if !ValidManifest(request.value.platformManifest) then Err(BadManifest)
      else request
  }

  lemma HexIsUtf8(s: seq<Byte>)
    requires AllHex(s)
    ensures ValidUtf8(s)
  {
  }

  /** Acceptance is decided by the name and three keys alone, UTF-8 being implied by the hex
      checks, and the request carries those keys unchanged. */
  lemma PrepareExact(name: seq<Byte>, data: SecretData)
    ensures PrepareRegistration(name, data).Ok? <==>
            && IsFixedLenHex(name, 32)
            && CpuSvn in data && IsFixedLenHex(data[CpuSvn], 32)
            && PceId in data && IsFixedLenHex(data[PceId], 4)
            && PlatformManifest in data && ValidManifest(data[PlatformManifest])
    ensures PrepareRegistration(name, data).Ok? ==>
              var r := PrepareRegistration(name, data).value;
              r.cpuSvn == data[CpuSvn] && r.pceId == data[PceId] &&
              r.platformManifest == data[PlatformManifest]
  {
    forall k | k in data && AllHex(data[k]) ensures ValidUtf8(data[k]) {
      HexIsUtf8(data[k]);
    }
  }

  // ---------- registration_fingerprint ----------

  /** `ring::digest::Context`: the bytes fed so far, hashed on `finish`. */
  class DigestContext {
    var fed: seq<Byte>

    constructor ()
      ensures fed == []
    {
      fed := [];
    }

    method Update(bytes: seq<Byte>)
      modifies this
      ensures fed == old(fed) + bytes
    {
      fed := fed + bytes;
    }
  }

  function Framed(field: seq<Byte>): seq<Byte> {
    LeBytes(|field|, 8) + field
  }

  function FramedAll(fields: seq<seq<Byte>>): seq<Byte> {
    if fields == [] then [] else Framed(fields[0]) + FramedAll(fields[1..])
  }

  function FieldsOf(r: Request): (fields: seq<Line>)
    ensures |fields| == 3
  {
    [r.platformManifest, r.pceId, r.cpuSvn]
  }

  /** The byte stream fed to the digest. */
  function Preimage(r: Request): seq<Byte> {
    FramedAll(FieldsOf(r))
  }

  // "sha256:"
  const SHA256_PREFIX: seq<Byte> := [115, 104, 97, 50, 53, 54, 58]

  function Rendered(digest: seq<Byte>): seq<Byte> {
    SHA256_PREFIX + HexEncode(digest)
  }

  type Digest = seq<Byte> -> seq<Byte>

  function Fingerprint(sha: Digest, r: Request): seq<Byte> {
    Rendered(sha(Preimage(r)))
  }

  lemma FrameNext(fed: seq<Byte>, fields: seq<seq<Byte>>, i: nat)
    requires i < |fields|
    ensures fed + FramedAll(fields[i..]) == fed + LeBytes(|fields[i]|, 8) + fields[i] + FramedAll(fields[i + 1..])
  {
  }

  method RegistrationFingerprint(sha: Digest, request: Request) returns (text: seq<Byte>)
    ensures text == Fingerprint(sha, request)
  {
    var ctx := new DigestContext();
    var fields := FieldsOf(request);
    assert fields[0..] == fields && [] + Preimage(request) == Preimage(request);
    for i := 0 to 3
      invariant ctx.fed + FramedAll(fields[i..]) == Preimage(request)
    {
      FrameNext(ctx.fed, fields, i);
      ctx.Update(LeBytes(|fields[i]|, 8));
      ctx.Update(fields[i]);
    }
    assert fields[3..] == [] && ctx.fed + [] == ctx.fed;
    text := SHA256_PREFIX + HexEncode(sha(ctx.fed));
  }

  lemma FramedPrefix(f: Line, restF: seq<Byte>, g: Line, restG: seq<Byte>)
    requires Framed(f) + restF == Framed(g) + restG
    ensures f == g && restF == restG
  {
    var s := Framed(f) + restF;
    assert s[..8] == LeBytes(|f|, 8) == LeBytes(|g|, 8);
    Limits();
    LeValueOfBytes(|f|, 8);
    LeValueOfBytes(|g|, 8);
    assert s[8..8 + |f|] == f && s[8..8 + |g|] == g;
    assert s[8 + |f|..] == restF && s[8 + |g|..] == restG;
  }

  lemma {:induction false} FramedAllInjective(fs: seq<Line>, gs: seq<Line>)
    requires |fs| == |gs| && FramedAll(fs) == FramedAll(gs)
    ensures fs == gs
  {
    if fs == [] {
    } else {
      FramedPrefix(fs[0], FramedAll(fs[1..]), gs[0], FramedAll(gs[1..]));
      FramedAllInjective(fs[1..], gs[1..]);
      assert fs == [fs[0]] + fs[1..] && gs == [gs[0]] + gs[1..];
    }
  }

  /** Field boundaries are unambiguous: different requests are hashed as different byte streams. */
  lemma PreimageInjective(a: Request, b: Request)
    requires Preimage(a) == Preimage(b)
    ensures a == b
  {
    FramedAllInjective(FieldsOf(a), FieldsOf(b));
    assert FieldsOf(a)[0] == FieldsOf(b)[0] && FieldsOf(a)[1] == FieldsOf(b)[1] && FieldsOf(a)[2] == FieldsOf(b)[2];
  }

  lemma RenderedInjective(a: seq<Byte>, b: seq<Byte>)
    requires Rendered(a) == Rendered(b)
    ensures a == b
  {
    assert Rendered(a)[7..] == HexEncode(a) && Rendered(b)[7..] == HexEncode(b);
    HexEncodeInjective(a, b);
  }

  ghost predicate Collide(sha: Digest, a: Request, b: Request) {
    Preimage(a) != Preimage(b) && sha(Preimage(a)) == sha(Preimage(b))
  }

  function Length64(field: Line): seq<Byte> { LeBytes(|field|, 8) }

  /** The bytes hashed: platform manifest, PCE ID and CPU SVN in this order, each after its length in
      eight bytes, least significant first. */
  lemma PreimageIs(r: Request)
    ensures Preimage(r) == Length64(r.platformManifest) + r.platformManifest + Length64(r.pceId) + r.pceId +
                           Length64(r.cpuSvn) + r.cpuSvn
    ensures forall field: Line, i :: 0 <= i < 8 ==> Length64(field)[i] == |field| / Pow256(i) % 256
  {
    var fs := FieldsOf(r);
    assert fs[1..][1..] == fs[2..] && fs[2..][1..] == [];
    assert FramedAll(fs[2..]) == Framed(r.cpuSvn);
    assert FramedAll(fs[1..]) == Framed(r.pceId) + Framed(r.cpuSvn);
    forall field: Line, i | 0 <= i < 8 ensures Length64(field)[i] == |field| / Pow256(i) % 256 {
      LeByteAt(|field|, 8, i);
    }
  }

  /** The text recorded: `sha256:` and the digest in lower-case hex. */
  lemma FingerprintText(sha: Digest, r: Request)
    ensures Fingerprint(sha, r) == Ascii("sha256:") + HexEncode(sha(Preimage(r)))
  {
    assert Ascii("sha256:") == SHA256_PREFIX;
  }

  /** Equal fingerprints mean equal requests, unless the two are a collision of the digest. */
  lemma FingerprintIdentifies(sha: Digest, a: Request, b: Request)
    ensures Fingerprint(sha, a) == Fingerprint(sha, b) <==> a == b || Collide(sha, a, b)
  {
    if Fingerprint(sha, a) == Fingerprint(sha, b) {
      RenderedInjective(sha(Preimage(a)), sha(Preimage(b)));
      if Preimage(a) == Preimage(b) {
        PreimageInjective(a, b);
      }
    }
  }

  /** Editing any other key leaves acceptance, the request and so the fingerprint unchanged. */
  lemma OtherKeysDoNotMatter(sha: Digest, name: seq<Byte>, data: SecretData, edited: SecretData)
    requires forall k :: k in {PlatformManifest, PceId, CpuSvn} ==>
               (k in data <==> k in edited) && (k in data ==> data[k] == edited[k])
    ensures PrepareRegistration(name, data) == PrepareRegistration(name, edited)
    ensures PrepareRegistration(name, data).Ok? ==>
              Fingerprint(sha, PrepareRegistration(name, data).value) ==
              Fingerprint(sha, PrepareRegistration(name, edited).value)
  {
  }
}
