/** Certificates from Intel PCS: issuer chains, the PCK certificate filter and TCB Info. */
module Certs {
  import opened Bytes
  import opened Results
  import opened Subsequences
  import opened Text

  type Der = seq<Byte>

  /** What the URL-encoding, JSON, PEM, X.509 and signature libraries answer. */
  datatype Pki = Pki(
    urlDecode: seq<Byte> -> Option<seq<Byte>>,
    pemBlocks: seq<Byte> -> Option<seq<Der>>,           // every PEM block of a text
    firstPem: seq<Byte> -> Option<Der>,
    parses: Der -> bool,                                // as an X.509 certificate
    selfSigned: Der -> bool,
    signedBy: (Der, Der) -> bool,                       // subject, then issuer
    publicKey: Der -> seq<Byte>,
    piid: seq<Byte> -> Option<seq<Byte>>,               // extract_piid of a PEM text
    entries: seq<Byte> -> Option<seq<Entry>>,           // the JSON array of PCK certificates
    signedTcbInfo: seq<Byte> -> Option<SignedTcbInfo>,  // the signed JSON document
    fmspc: seq<Byte> -> Option<seq<Byte>>,              // of the raw tcbInfo object
    ecdsaVerifies: (seq<Byte>, seq<Byte>, seq<Byte>) -> bool)  // key, message, signature

  datatype Entry = Entry(tcb: seq<Byte>, tcbm: seq<Byte>, cert: seq<Byte>)

  datatype SignedTcbInfo = SignedTcbInfo(raw: seq<Byte>, signature: seq<Byte>)

  // ---------- issuer chains ----------

  datatype ChainError =
    | BadUrlEncoding | BadPem | WrongCount(n: nat) | BadCertificate(index: nat) | NoRoot | NotSignedByRoot

  datatype Chain = Chain(root: Der, issuer: Der)

  /** The two certificates are a root that signed itself and an issuer that it signed, in either
      order. */
  ghost predicate IsChain(pki: Pki, ders: seq<Der>, c: Chain) {
    |ders| == 2 && multiset(ders) == multiset{c.root, c.issuer} && Signed(pki, c)
  }

  predicate Signed(pki: Pki, c: Chain) {
    && pki.parses(c.root) && pki.parses(c.issuer)
    && pki.selfSigned(c.root) && !pki.selfSigned(c.issuer)
    && pki.signedBy(c.issuer, c.root)
  }

  function ChainDers(pki: Pki, text: seq<Byte>): Option<seq<Der>> {
    var decoded := pki.urlDecode(text);
    if decoded.None? then None else pki.pemBlocks(decoded.value)
  }

  ghost predicate TextIsChain(pki: Pki, text: seq<Byte>, c: Chain) {
    ChainDers(pki, text).Some? && IsChain(pki, ChainDers(pki, text).value, c)
  }

  lemma ChainIsUnique(pki: Pki, ders: seq<Der>, c: Chain, d: Chain)
    requires IsChain(pki, ders, c) && IsChain(pki, ders, d)
    ensures c == d
  {
  }

  /** `Vec::swap_remove`: takes out one element, the last one moving into its place. */
  function SwapRemoved<T>(s: seq<T>, i: nat): (rest: seq<T>)
    requires i < |s|
    ensures |rest| == |s| - 1
  {
    s[i := s[|s| - 1]][..|s| - 1]
  }

  lemma SwapRemovedRest<T>(s: seq<T>, i: nat)
    requires i < |s|
    ensures multiset(SwapRemoved(s, i)) + multiset{s[i]} == multiset(s)
  {
    var n := |s| - 1;
    var swapped := s[i := s[n]];
    assert swapped == SwapRemoved(s, i) + [s[n]];
    assert multiset(swapped) == multiset(s) - multiset{s[i]} + multiset{s[n]};
  }

  lemma TwoOrders(pki: Pki, ders: seq<Der>, c: Chain)
    requires |ders| == 2
    ensures IsChain(pki, ders, c) <==>
            (c == Chain(ders[0], ders[1]) || c == Chain(ders[1], ders[0])) && Signed(pki, c)
  {
    var a, b := ders[0], ders[1];
    assert ders == [a, b] && multiset(ders) == multiset{a, b};
    if multiset{a, b} == multiset{c.root, c.issuer} {
      assert c.root in multiset{a, b} && c.issuer in multiset{a, b};
      assert a in multiset{c.root, c.issuer} && b in multiset{c.root, c.issuer};
    }
  }

  method DecodeAndValidateIssuerChain(pki: Pki, text: seq<Byte>) returns (r: Result<Chain, ChainError>)
    ensures r.Ok? ==> TextIsChain(pki, text, r.value)
    ensures r.Err? ==> forall c :: !TextIsChain(pki, text, c)
  {
    var decoded := pki.urlDecode(text);
    if decoded.None? {
      return Err(BadUrlEncoding);
    }
    var blocks := pki.pemBlocks(decoded.value);
    if blocks.None? {
      return Err(BadPem);
    }
    r := ValidateChain(pki, blocks.value);
  }

  /** Positions of the root and of the issuer; fails when neither way round makes a chain. */
  method IdentifyRoot(pki: Pki, ders: seq<Der>) returns (r: Result<(nat, nat), ChainError>)
    requires |ders| == 2
    ensures r.Ok? ==> r.value == (0, 1) || r.value == (1, 0)
    ensures r.Ok? ==> Signed(pki, Chain(ders[r.value.0], ders[r.value.1]))
    ensures r.Err? ==> !Signed(pki, Chain(ders[0], ders[1])) && !Signed(pki, Chain(ders[1], ders[0]))
  {
    if !pki.parses(ders[0]) {
      return Err(BadCertificate(0));
    }
    if !pki.parses(ders[1]) {
      return Err(BadCertificate(1));
    }
    var selfSigned0, selfSigned1 := pki.selfSigned(ders[0]), pki.selfSigned(ders[1]);
    var rootIndex, issuerIndex;
    if selfSigned0 && !selfSigned1 {
      rootIndex, issuerIndex := 0, 1;
    } else if selfSigned1 && !selfSigned0 {
      rootIndex, issuerIndex := 1, 0;
    } else {
      return Err(NoRoot);
    }
    if !pki.signedBy(ders[issuerIndex], ders[rootIndex]) {
      return Err(NotSignedByRoot);
    }
    r := Ok((rootIndex, issuerIndex));
  }

  method ValidateChain(pki: Pki, ders: seq<Der>) returns (r: Result<Chain, ChainError>)
    ensures r.Ok? ==> IsChain(pki, ders, r.value)
    ensures r.Err? ==> forall c :: !IsChain(pki, ders, c)
  {
    var chainDer := ders;
    if |chainDer| != 2 {
      return Err(WrongCount(|chainDer|));
    }
    forall c: Chain ensures IsChain(pki, ders, c) <==>
      (c == Chain(ders[0], ders[1]) || c == Chain(ders[1], ders[0])) && Signed(pki, c)
    {
      TwoOrders(pki, ders, c);
    }
    var found := IdentifyRoot(pki, chainDer);
    if found.Err? {
      return Err(found.error);
    }
    var issuerIndex := found.value.1;
    var issuer := chainDer[issuerIndex];
    SwapRemovedRest(chainDer, issuerIndex);
    chainDer := SwapRemoved(chainDer, issuerIndex);
    assert chainDer == [chainDer[0]];
    var root := chainDer[0];
    r := Ok(Chain(root, issuer));
  }

  /** Two chain texts hold the same certificates, possibly in another order. */
  ghost predicate Reordered(pki: Pki, text: seq<Byte>, other: seq<Byte>) {
    && ChainDers(pki, text).Some? && ChainDers(pki, other).Some?
    && multiset(ChainDers(pki, text).value) == multiset(ChainDers(pki, other).value)
  }

  /** The order of the two certificates makes no difference. */
  lemma ChainOrderIndependent(pki: Pki, text: seq<Byte>, other: seq<Byte>, c: Chain)
    requires Reordered(pki, text, other)
    ensures TextIsChain(pki, text, c) <==> TextIsChain(pki, other, c)
  {
  }

  // ---------- PCK certificates ----------

  /** The text "Not available". */
  const NOT_AVAILABLE: seq<Byte> := [78, 111, 116, 32, 97, 118, 97, 105, 108, 97, 98, 108, 101]

  predicate Available(e: Entry) { e.cert != NOT_AVAILABLE }

  datatype Verdict = Good | BadSignature | Broken

  function VerifyCertificate(pki: Pki, pem: seq<Byte>, issuer: Der): Verdict {
    var der := pki.firstPem(pem);
    if der.None? || !pki.parses(der.value) then Broken
    else if pki.signedBy(der.value, issuer) then Good
    else BadSignature
  }

  predicate Verifies(pki: Pki, e: Entry, issuer: Der) {
    var pem := pki.urlDecode(e.cert);
    pem.Some? && VerifyCertificate(pki, pem.value, issuer).Good?
  }

  function PiidOf(pki: Pki, e: Entry): Option<seq<Byte>> {
    var pem := pki.urlDecode(e.cert);
    if pem.None? then None else pki.piid(pem.value)
  }

  function AvailableOnly(es: seq<Entry>): seq<Entry> {
    Filter(es, Available)
  }

  /** What is kept is the subsequence of the available entries: every one of them, unchanged, in
      the order received, and nothing else. */
  lemma KeptIsSubsequence(es: seq<Entry>) returns (at: seq<nat>)
    ensures Selects(es, Available, AvailableOnly(es), at)
  {
    at := FilterSelects(es, Available);
  }

  /** The first entry kept is the first available one. */
  lemma FirstKept(es: seq<Entry>, i: nat)
    requires i < |es| && Available(es[i]) && forall j :: 0 <= j < i ==> !Available(es[j])
    ensures AvailableOnly(es) != [] && AvailableOnly(es)[0] == es[i]
  {
    var at := KeptIsSubsequence(es);
    assert i in at;
    var k :| 0 <= k < |at| && at[k] == i;
    assert at[0] in at && at[0] <= at[k];
  }

  datatype FilterError =
    | BadJson | BadChain(error: ChainError) | BadEntry(index: nat) | NoneAvailable | NoPiid

  /** The filtered array, the PIID, and the number of entries skipped, which is logged. */
  datatype Filtered = Filtered(certs: seq<Entry>, piid: seq<Byte>, skipped: nat)

  ghost predicate AllVerify(pki: Pki, es: seq<Entry>, issuer: Der) {
    forall e :: e in es && Available(e) ==> Verifies(pki, e, issuer)
  }

  /** What a successful answer has to be. */
  ghost predicate FiltersTo(pki: Pki, es: seq<Entry>, issuer: Der, f: Filtered) {
    && AllVerify(pki, es, issuer)
    && f.certs == AvailableOnly(es) && f.certs != []
    && PiidOf(pki, f.certs[0]) == Some(f.piid)
    && |f.certs| + f.skipped == |es|
  }

  ghost predicate FilterAnswer(pki: Pki, json: seq<Byte>, text: seq<Byte>, f: Filtered) {
    && pki.entries(json).Some?
    && exists c :: TextIsChain(pki, text, c) && FiltersTo(pki, pki.entries(json).value, c.issuer, f)
  }

  method FilterAndVerifyPckCerts(pki: Pki, json: seq<Byte>, text: seq<Byte>)
    returns (r: Result<Filtered, FilterError>)
    ensures r.Ok? ==> FilterAnswer(pki, json, text, r.value)
    ensures r.Err? ==> forall f :: !FilterAnswer(pki, json, text, f)
  {
    var parsed := pki.entries(json);
    if parsed.None? {
      return Err(BadJson);
    }
    var chain := DecodeAndValidateIssuerChain(pki, text);
    if chain.Err? {
      return Err(BadChain(chain.error));
    }
    r := FilterEntries(pki, parsed.value, chain.value.issuer);
    if r.Err? {
      forall c | TextIsChain(pki, text, c) ensures c == chain.value {
        ChainIsUnique(pki, ChainDers(pki, text).value, c, chain.value);
      }
    }
  }

  /** Succeeds exactly when every available entry verifies, there is one, and the first yields a
      PIID; reports the first entry that does not verify. */
  method FilterEntries(pki: Pki, es: seq<Entry>, issuer: Der) returns (r: Result<Filtered, FilterError>)
    ensures r.Ok? ==> FiltersTo(pki, es, issuer, r.value)
    ensures r.Err? ==> forall f :: !FiltersTo(pki, es, issuer, f)
    ensures r.Err? && r.error.BadEntry? ==>
              var i := r.error.index;
              && i < |es| && Available(es[i]) && !Verifies(pki, es[i], issuer)
              && AllVerify(pki, es[..i], issuer)
  {
    var kept: seq<Entry>, skipped, i := [], 0, 0;
    while i < |es|
      invariant 0 <= i <= |es|
      invariant kept == AvailableOnly(es[..i]) && |kept| + skipped == i
      invariant AllVerify(pki, es[..i], issuer)
    {
      assert es[..i + 1] == es[..i] + [es[i]] && es[..i + 1][..i] == es[..i];
      assert es[i] in es;
      if es[i].cert == NOT_AVAILABLE {
        skipped := skipped + 1;
      } else {
        var pem := pki.urlDecode(es[i].cert);
        if pem.None? || !VerifyCertificate(pki, pem.value, issuer).Good? {
          assert !Verifies(pki, es[i], issuer);
          return Err(BadEntry(i));
        }
        kept := kept + [es[i]];
      }
      i := i + 1;
    }
    assert es[..i] == es;
    if kept == [] {
      return Err(NoneAvailable);
    }
    var piid := PiidOf(pki, kept[0]);
    if piid.None? {
      return Err(NoPiid);
    }
    r := Ok(Filtered(kept, piid.value, skipped));
  }

  // ---------- TCB Info ----------

  const ECDSA_P256_SIGNATURE_LEN: nat := 64

  function ToLower(b: Byte): Byte { if 65 <= b <= 90 then b + 32 else b }

  predicate EqIgnoreAsciiCase(a: seq<Byte>, b: seq<Byte>) {
    |a| == |b| && forall i :: 0 <= i < |a| ==> ToLower(a[i]) == ToLower(b[i])
  }

  datatype TcbError =
    | BadTcbChain(error: ChainError) | BadPckChain(error: ChainError) | RootMismatch
    | BadDocument | BadSignatureEncoding | SignatureMismatch | BadTcbInfo | FmspcMismatch

  /** The document carries a signature of its own raw `tcbInfo` text under `key`, and that text
      names the expected FMSPC. */
  predicate SignedFor(pki: Pki, json: seq<Byte>, key: seq<Byte>, expected: seq<Byte>) {
    var doc := pki.signedTcbInfo(json);
    && doc.Some?
    && IsFixedLenHex(doc.value.signature, 2 * ECDSA_P256_SIGNATURE_LEN)
    && pki.ecdsaVerifies(key, doc.value.raw, HexDecode(doc.value.signature))
    && pki.fmspc(doc.value.raw).Some? && EqIgnoreAsciiCase(pki.fmspc(doc.value.raw).value, expected)
  }

  method VerifyTcbInfoSignature(pki: Pki, json: seq<Byte>, key: seq<Byte>, expected: seq<Byte>)
    returns (r: Result<(), TcbError>)
    ensures r.Ok? <==> SignedFor(pki, json, key, expected)
  {
    var doc := pki.signedTcbInfo(json);
    if doc.None? {
      return Err(BadDocument);
    }
    var ok, signature := DecodeHex(doc.value.signature, ECDSA_P256_SIGNATURE_LEN);
    if !ok {
      return Err(BadSignatureEncoding);
    }
    if !pki.ecdsaVerifies(key, doc.value.raw, signature[..]) {
      return Err(SignatureMismatch);
    }
    var fmspc := pki.fmspc(doc.value.raw);
    if fmspc.None? {
      return Err(BadTcbInfo);
    }
    if !EqIgnoreAsciiCase(fmspc.value, expected) {
      return Err(FmspcMismatch);
    }
    r := Ok(());
  }

  /** Both chains are valid, share their root, and the TCB signing certificate signed the document. */
  ghost predicate TcbInfoGenuine(pki: Pki, json: seq<Byte>, tcbChain: seq<Byte>, pckChain: seq<Byte>,
                                 expected: seq<Byte>)
  {
    exists t, p :: && TextIsChain(pki, tcbChain, t) && TextIsChain(pki, pckChain, p) && t.root == p.root
                   && SignedFor(pki, json, pki.publicKey(t.issuer), expected)
  }

  method VerifyTcbInfo(pki: Pki, json: seq<Byte>, tcbChain: seq<Byte>, pckChain: seq<Byte>, expected: seq<Byte>)
    returns (r: Result<(), TcbError>)
    ensures r.Ok? <==> TcbInfoGenuine(pki, json, tcbChain, pckChain, expected)
  {
    var tcb := DecodeAndValidateIssuerChain(pki, tcbChain);
    if tcb.Err? {
      return Err(BadTcbChain(tcb.error));
    }
    var pck := DecodeAndValidateIssuerChain(pki, pckChain);
    if pck.Err? {
      return Err(BadPckChain(pck.error));
    }
    forall t | TextIsChain(pki, tcbChain, t) ensures t == tcb.value {
      ChainIsUnique(pki, ChainDers(pki, tcbChain).value, t, tcb.value);
    }
    forall p | TextIsChain(pki, pckChain, p) ensures p == pck.value {
      ChainIsUnique(pki, ChainDers(pki, pckChain).value, p, pck.value);
    }
    if tcb.value.root != pck.value.root {
      return Err(RootMismatch);
    }
    r := VerifyTcbInfoSignature(pki, json, pki.publicKey(tcb.value.issuer), expected);
  }

  /** The decision is the same for every order of the certificates in the two chains. */
  lemma TcbDecisionOrderIndependent(pki: Pki, json: seq<Byte>, tcbChain: seq<Byte>, tcbOther: seq<Byte>,
                                    pckChain: seq<Byte>, pckOther: seq<Byte>, expected: seq<Byte>)
    requires Reordered(pki, tcbChain, tcbOther) && Reordered(pki, pckChain, pckOther)
    ensures TcbInfoGenuine(pki, json, tcbChain, pckChain, expected) <==>
            TcbInfoGenuine(pki, json, tcbOther, pckOther, expected)
  {
  }

  /** So is the answer of the PCK certificate filter; it is also unique. */
  lemma FilterOrderIndependent(pki: Pki, json: seq<Byte>, text: seq<Byte>, other: seq<Byte>,
                               f: Filtered, g: Filtered)
    requires Reordered(pki, text, other)
    ensures FilterAnswer(pki, json, text, f) <==> FilterAnswer(pki, json, other, f)
    ensures FilterAnswer(pki, json, text, f) && FilterAnswer(pki, json, text, g) ==> f == g
  {
  }

  // ---------- the decisions, written out ----------

  /** The text "Not available". */
  lemma NotAvailableIs()
    ensures NOT_AVAILABLE == Ascii("Not available")
  {
  }

  /** What makes a text a chain: it decodes to two certificates, in either order, both parse, the root
      and only the root signed itself, and the root signed the issuer. */
  lemma ChainMeans(pki: Pki, text: seq<Byte>, c: Chain)
    ensures TextIsChain(pki, text, c) <==>
            && pki.urlDecode(text).Some? && pki.pemBlocks(pki.urlDecode(text).value).Some?
            && var ders := pki.pemBlocks(pki.urlDecode(text).value).value;
            && (ders == [c.root, c.issuer] || ders == [c.issuer, c.root])
            && pki.parses(c.root) && pki.parses(c.issuer)
            && pki.selfSigned(c.root) && !pki.selfSigned(c.issuer) && pki.signedBy(c.issuer, c.root)
  {
    if pki.urlDecode(text).Some? && pki.pemBlocks(pki.urlDecode(text).value).Some? {
      var ders := pki.pemBlocks(pki.urlDecode(text).value).value;
      if |ders| == 2 {
        TwoOrders(pki, ders, c);
        assert ders == [ders[0], ders[1]];
      }
    }
  }

  /** The entry holds, URL-encoded, a PEM certificate that parses and that `issuer` signed. */
  ghost predicate SignedEntry(pki: Pki, e: Entry, issuer: Der) {
    exists pem, der :: && pki.urlDecode(e.cert) == Some(pem) && pki.firstPem(pem) == Some(der)
                       && pki.parses(der) && pki.signedBy(der, issuer)
  }

  /** The entry holds a certificate from which this PIID is extracted. */
  ghost predicate YieldsPiid(pki: Pki, e: Entry, piid: seq<Byte>) {
    exists pem :: pki.urlDecode(e.cert) == Some(pem) && pki.piid(pem) == Some(piid)
  }

  lemma VerifiesMeans(pki: Pki, e: Entry, issuer: Der)
    ensures Verifies(pki, e, issuer) <==> SignedEntry(pki, e, issuer)
  {
    if Verifies(pki, e, issuer) {
      var pem := pki.urlDecode(e.cert).value;
      var der := pki.firstPem(pem).value;
      assert pki.urlDecode(e.cert) == Some(pem) && pki.firstPem(pem) == Some(der);
    }
  }

  /** `issuer` signed every entry that is not marked unavailable. */
  ghost predicate AllSigned(pki: Pki, es: seq<Entry>, issuer: Der) {
    forall e :: e in es && e.cert != Ascii("Not available") ==> SignedEntry(pki, e, issuer)
  }

  lemma AllVerifyMeans(pki: Pki, es: seq<Entry>, issuer: Der)
    ensures AllVerify(pki, es, issuer) <==> AllSigned(pki, es, issuer)
  {
    NotAvailableIs();
    forall e ensures Verifies(pki, e, issuer) <==> SignedEntry(pki, e, issuer) {
      VerifiesMeans(pki, e, issuer);
    }
  }

  lemma PiidMeans(pki: Pki, e: Entry, piid: seq<Byte>)
    ensures PiidOf(pki, e) == Some(piid) <==> YieldsPiid(pki, e, piid)
  {
    if PiidOf(pki, e) == Some(piid) {
      assert pki.urlDecode(e.cert) == Some(pki.urlDecode(e.cert).value);
    }
  }

  /** What the PCK certificate filter answers: `f` if and only if the array and the chain are good, the
      issuer of the chain signed every entry that is not marked unavailable, those are the ones kept,
      there is one, and the first yields the PIID. */
  lemma FilterMeans(pki: Pki, json: seq<Byte>, text: seq<Byte>, f: Filtered)
    ensures FilterAnswer(pki, json, text, f) <==>
            && pki.entries(json).Some?
            && var es := pki.entries(json).value;
            && (exists c :: TextIsChain(pki, text, c) && AllSigned(pki, es, c.issuer))
            && f.certs == AvailableOnly(es) && f.certs != [] && |f.certs| + f.skipped == |es|
            && YieldsPiid(pki, f.certs[0], f.piid)
  {
    if pki.entries(json).Some? {
      var es := pki.entries(json).value;
      forall issuer ensures AllVerify(pki, es, issuer) <==> AllSigned(pki, es, issuer) {
        AllVerifyMeans(pki, es, issuer);
      }
      if f.certs != [] {
        PiidMeans(pki, f.certs[0], f.piid);
      }
    }
  }

  /** The same text but for the case of letters: where the bytes differ, they are the two forms of one
      letter. */
  predicate SameButCase(a: seq<Byte>, b: seq<Byte>) {
    |a| == |b| && forall i :: 0 <= i < |a| && a[i] != b[i] ==>
      ('A' as int <= a[i] <= 'Z' as int && b[i] == a[i] + 32) || ('A' as int <= b[i] <= 'Z' as int && a[i] == b[i] + 32)
  }

  lemma EqIgnoreAsciiCaseMeans(a: seq<Byte>, b: seq<Byte>)
    ensures EqIgnoreAsciiCase(a, b) <==> SameButCase(a, b)
  {
  }

  /** The document holds a raw `tcbInfo` text that names the expected FMSPC, and 128 hex characters that
      are its signature under `key`. */
  ghost predicate SignedDocument(pki: Pki, json: seq<Byte>, key: seq<Byte>, expected: seq<Byte>) {
    exists doc, fmspc ::
      && pki.signedTcbInfo(json) == Some(doc) && |doc.signature| == 128 && AllHex(doc.signature)
      && pki.ecdsaVerifies(key, doc.raw, HexDecode(doc.signature))
      && pki.fmspc(doc.raw) == Some(fmspc) && SameButCase(fmspc, expected)
  }

  /** What makes TCB Info genuine: two good chains with the same root, and a document signed by the
      certificate that the root of the first chain signed. */
  lemma TcbInfoMeans(pki: Pki, json: seq<Byte>, tcbChain: seq<Byte>, pckChain: seq<Byte>, expected: seq<Byte>)
    ensures TcbInfoGenuine(pki, json, tcbChain, pckChain, expected) <==>
            exists root, signer, issuer :: Genuine(pki, json, tcbChain, pckChain, expected, root, signer, issuer)
  {
    if TcbInfoGenuine(pki, json, tcbChain, pckChain, expected) {
      var t, p :| && TextIsChain(pki, tcbChain, t) && TextIsChain(pki, pckChain, p) && t.root == p.root
                  && SignedFor(pki, json, pki.publicKey(t.issuer), expected);
      GenuineWith(pki, json, tcbChain, pckChain, expected, t, p);
      assert Genuine(pki, json, tcbChain, pckChain, expected, t.root, t.issuer, p.issuer);
    }
    if root, signer, issuer :| Genuine(pki, json, tcbChain, pckChain, expected, root, signer, issuer) {
      GenuineWith(pki, json, tcbChain, pckChain, expected, Chain(root, signer), Chain(root, issuer));
    }
  }

  ghost predicate Genuine(pki: Pki, json: seq<Byte>, tcbChain: seq<Byte>, pckChain: seq<Byte>, expected: seq<Byte>,
                          root: Der, signer: Der, issuer: Der)
  {
    && TextIsChain(pki, tcbChain, Chain(root, signer)) && TextIsChain(pki, pckChain, Chain(root, issuer))
    && SignedDocument(pki, json, pki.publicKey(signer), expected)
  }

  lemma GenuineWith(pki: Pki, json: seq<Byte>, tcbChain: seq<Byte>, pckChain: seq<Byte>, expected: seq<Byte>,
                    t: Chain, p: Chain)
    requires t.root == p.root
    ensures TextIsChain(pki, tcbChain, t) && TextIsChain(pki, pckChain, p) &&
            SignedFor(pki, json, pki.publicKey(t.issuer), expected) <==>
            Genuine(pki, json, tcbChain, pckChain, expected, t.root, t.issuer, p.issuer)
  {
    SignedForMeans(pki, json, pki.publicKey(t.issuer), expected);
    assert t == Chain(t.root, t.issuer) && p == Chain(p.root, p.issuer);
  }

  lemma SignedForMeans(pki: Pki, json: seq<Byte>, key: seq<Byte>, expected: seq<Byte>)
    ensures SignedFor(pki, json, key, expected) <==> SignedDocument(pki, json, key, expected)
  {
    var doc := pki.signedTcbInfo(json);
    if SignedFor(pki, json, key, expected) {
      EqIgnoreAsciiCaseMeans(pki.fmspc(doc.value.raw).value, expected);
      assert doc == Some(doc.value) && pki.fmspc(doc.value.raw) == Some(pki.fmspc(doc.value.raw).value);
    }
    if SignedDocument(pki, json, key, expected) {
      EqIgnoreAsciiCaseMeans(pki.fmspc(doc.value.raw).value, expected);
    }
  }
}
