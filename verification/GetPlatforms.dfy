/** The producer side: the C tool's printer, the EFI variable and the platform-data secret. */
module GetPlatforms {
  import opened Bytes
  import opened Results
  import opened Text
  import opened PlatformData

  // ---------- get_platform_info.c ----------

  /** An output stream: what has been written to it. */
  class OutStream {
    var text: seq<Byte>

    constructor ()
      ensures text == []
    {
      text := [];
    }

    method Print(s: seq<Byte>)
      modifies this
      ensures text == old(text) + s
    {
      text := text + s;
    }

    /** `printf("%02x", ..)` for each byte of a buffer. */
    method PrintHex(bytes: array<Byte>)
      modifies this
      ensures text == old(text) + HexEncode(bytes[..])
    {
      ghost var start := text;
      assert HexEncode(bytes[..0]) == [];
      for i := 0 to bytes.Length
        invariant text == start + HexEncode(bytes[..i])
      {
        Print([HexDigit(bytes[i] / 16), HexDigit(bytes[i] % 16)]);
        HexEncodeSnoc(bytes[..i], bytes[i]);
        assert bytes[..i + 1] == bytes[..i] + [bytes[i]];
      }
      assert bytes[..bytes.Length] == bytes[..];
    }
  }

  lemma HexEncodeSnoc(bytes: seq<Byte>, b: Byte)
    ensures HexEncode(bytes + [b]) == HexEncode(bytes) + [HexDigit(b / 16), HexDigit(b % 16)]
  {
  }

  /** One member of a JSON object: a name and a string that needs no escaping. */
  datatype Member = Member(key: Key, text: seq<Byte>)

  function KeyText(key: Key): string {
    match key
    case PlatformManifest => "platform_manifest"
    case PceId => "pce_id"
    case CpuSvn => "cpu_svn"
    case PceSvn => "pce_svn"
    case QeId => "qe_id"
    case EncPpid => "enc_ppid"
    case OtherKey(name) => name
  }

  const QUOTE: Byte := 34
  const COMMA: Byte := 44
  const COLON: Byte := 58

  function Opening(key: Key): seq<Byte> {
    [QUOTE] + Ascii(KeyText(key)) + [QUOTE, COLON, QUOTE]
  }

  function MemberText(m: Member): seq<Byte> {
    Opening(m.key) + m.text + [QUOTE]
  }

  /** The JSON text of the members, separated by commas. */
  function MembersText(ms: seq<Member>): seq<Byte> {
    if ms == [] then []
    else MembersText(ms[..|ms| - 1]) + (if |ms| > 1 then [COMMA] else []) + MemberText(ms[|ms| - 1])
  }

  function JsonLine(ms: seq<Member>): seq<Byte> {
    [123] + MembersText(ms) + [125, 10]
  }

  function PlatformMembers(cpuSvn: seq<Byte>, encPpid: seq<Byte>, pceId: seq<Byte>, pceSvn: seq<Byte>,
                           qeId: seq<Byte>): seq<Member> {
    [Member(CpuSvn, HexEncode(cpuSvn)), Member(EncPpid, HexEncode(encPpid)),
     Member(PceId, HexEncode(pceId)), Member(PceSvn, HexEncode(pceSvn)), Member(QeId, HexEncode(qeId))]
  }

  lemma MembersTextSnoc(ms: seq<Member>, i: nat)
    requires i < |ms|
    ensures MembersText(ms[..i + 1]) == MembersText(ms[..i]) + (if i > 0 then [COMMA] else []) + MemberText(ms[i])
  {
    assert ms[..i + 1][..i] == ms[..i];
  }

  lemma NextMember(open: seq<Byte>, ms: seq<Member>, i: nat, before: seq<Byte>, after: seq<Byte>)
    requires i < |ms| && before == open + MembersText(ms[..i])
    requires after == (if i > 0 then before + [COMMA] else before) + MemberText(ms[i])
    ensures after == open + MembersText(ms[..i + 1])
  {
    MembersTextSnoc(ms, i);
    var group, ahead := MemberText(ms[i]), MembersText(ms[..i]);
    if i > 0 {
      Regroup(open, ahead, [COMMA], group);
    } else {
      Regroup(open, ahead, [], group);
      assert open + ahead + [] == open + ahead;
    }
  }

  lemma Regroup(a: seq<Byte>, b: seq<Byte>, c: seq<Byte>, d: seq<Byte>)
    ensures a + b + c + d == a + (b + c + d)
  {
  }

  /** One `"name":"hex"` group of `print_json_output`. */
  method PrintGroup(out: OutStream, key: Key, bytes: array<Byte>)
    modifies out
    ensures out.text == old(out.text) + MemberText(Member(key, HexEncode(bytes[..])))
  {
    out.Print(Opening(key));
    out.PrintHex(bytes);
    out.Print([QUOTE]);
    Regroup(old(out.text), Opening(key), HexEncode(bytes[..]), [QUOTE]);
  }

  /** A group, with the comma that separates it from the group before. */
  method PrintMember(out: OutStream, ghost open: seq<Byte>, ghost ms: seq<Member>, i: nat, key: Key, bytes: array<Byte>)
    requires i < |ms| && ms[i] == Member(key, HexEncode(bytes[..]))
    requires out.text == open + MembersText(ms[..i])
    modifies out
    ensures out.text == open + MembersText(ms[..i + 1])
  {
    ghost var before := out.text;
    if i > 0 {
      out.Print([COMMA]);
    }
    PrintGroup(out, key, bytes);
    NextMember(open, ms, i, before, out.text);
  }

  /** Prints exactly the JSON line of the five hex members, for any buffer contents. */
  method PrintJsonOutput(out: OutStream, cpuSvn: array<Byte>, encPpid: array<Byte>, pceId: array<Byte>,
                         pceSvn: array<Byte>, qeId: array<Byte>)
    modifies out
    ensures out.text == old(out.text) +
                        JsonLine(PlatformMembers(cpuSvn[..], encPpid[..], pceId[..], pceSvn[..], qeId[..]))
  {
    ghost var ms := PlatformMembers(cpuSvn[..], encPpid[..], pceId[..], pceSvn[..], qeId[..]);
    out.Print([123]);
    ghost var open := out.text;
    assert ms[..0] == [];
    PrintMember(out, open, ms, 0, CpuSvn, cpuSvn);
    PrintMember(out, open, ms, 1, EncPpid, encPpid);
    PrintMember(out, open, ms, 2, PceId, pceId);
    PrintMember(out, open, ms, 3, PceSvn, pceSvn);
    PrintMember(out, open, ms, 4, QeId, qeId);
    assert ms[..5] == ms;
    out.Print([125, 10]);
    Regroup(old(out.text), [123], MembersText(ms), [125, 10]);
  }

  // ---------- the printed text is unambiguous ----------

  function KeyBytes(key: Key): seq<Byte> { Ascii(KeyText(key)) }

  /** Neither the name nor the value holds a quote, so neither needs escaping. */
  predicate Plain(m: Member) {
    QUOTE !in KeyBytes(m.key) && QUOTE !in m.text
  }

  lemma LastQuote(x: seq<Byte>, a: seq<Byte>, y: seq<Byte>, b: seq<Byte>)
    requires x + [QUOTE] + a == y + [QUOTE] + b && QUOTE !in a && QUOTE !in b
    ensures x == y && a == b
  {
    var s := x + [QUOTE] + a;
    assert s[|x|] == QUOTE && s[|y|] == QUOTE;
    assert forall i :: |x| < i < |s| ==> s[i] in a;
    assert forall i :: |y| < i < |s| ==> s[i] in b;
    assert s[..|x|] == x && s[..|y|] == y && s[|x| + 1..] == a && s[|y| + 1..] == b;
  }

  /** A text that ends in a member ends in only one. */
  lemma LastMember(before: seq<Byte>, m: Member, other: seq<Byte>, n: Member)
    requires before + MemberText(m) == other + MemberText(n) && Plain(m) && Plain(n)
    ensures before == other && KeyBytes(m.key) == KeyBytes(n.key) && m.text == n.text
  {
    var k, l := KeyBytes(m.key), KeyBytes(n.key);
    var upToKey, upToKey' := before + [QUOTE] + k, other + [QUOTE] + l;
    var upToColon, upToColon' := upToKey + [QUOTE] + [COLON], upToKey' + [QUOTE] + [COLON];
    var upToText, upToText' := upToColon + [QUOTE] + m.text, upToColon' + [QUOTE] + n.text;
    assert before + MemberText(m) == upToText + [QUOTE] + [];
    assert other + MemberText(n) == upToText' + [QUOTE] + [];
    LastQuote(upToText, [], upToText', []);
    LastQuote(upToColon, m.text, upToColon', n.text);
    LastQuote(upToKey, [COLON], upToKey', [COLON]);
    LastQuote(before, k, other, l);
  }

  function Before(ms: seq<Member>): seq<Byte>
    requires ms != []
  {
    MembersText(ms[..|ms| - 1]) + if |ms| > 1 then [COMMA] else []
  }

  lemma MembersTextSplits(ms: seq<Member>)
    requires ms != []
    ensures MembersText(ms) == Before(ms) + MemberText(ms[|ms| - 1]) && MembersText(ms) != []
  {
  }

  ghost predicate SameTexts(ms: seq<Member>, ns: seq<Member>) {
    && |ms| == |ns|
    && forall i :: 0 <= i < |ms| ==> KeyBytes(ms[i].key) == KeyBytes(ns[i].key) && ms[i].text == ns[i].text
  }

  lemma SameTextsSnoc(ms: seq<Member>, ns: seq<Member>)
    requires ms != [] && ns != [] && SameTexts(ms[..|ms| - 1], ns[..|ns| - 1])
    requires KeyBytes(ms[|ms| - 1].key) == KeyBytes(ns[|ns| - 1].key) && ms[|ms| - 1].text == ns[|ns| - 1].text
    ensures SameTexts(ms, ns)
  {
    assert forall i :: 0 <= i < |ms| - 1 ==> ms[i] == ms[..|ms| - 1][i];
    assert forall i :: 0 <= i < |ns| - 1 ==> ns[i] == ns[..|ns| - 1][i];
  }

  /** Reading the text back is unambiguous: the same text comes from the same members. */
  lemma {:induction false} MembersTextInjective(ms: seq<Member>, ns: seq<Member>)
    requires MembersText(ms) == MembersText(ns)
    requires (forall m :: m in ms ==> Plain(m)) && forall n :: n in ns ==> Plain(n)
    ensures SameTexts(ms, ns)
  {
    if ms == [] || ns == [] {
      if ms != [] { MembersTextSplits(ms); }
      if ns != [] { MembersTextSplits(ns); }
    } else {
      var m, n := ms[|ms| - 1], ns[|ns| - 1];
      MembersTextSplits(ms);
      MembersTextSplits(ns);
      LastMember(Before(ms), m, Before(ns), n);
      BeforeIsMembers(ms, ns);
      MembersTextInjective(ms[..|ms| - 1], ns[..|ns| - 1]);
      SameTextsSnoc(ms, ns);
    }
  }

  lemma BeforeIsMembers(ms: seq<Member>, ns: seq<Member>)
    requires ms != [] && ns != [] && Before(ms) == Before(ns)
    ensures MembersText(ms[..|ms| - 1]) == MembersText(ns[..|ns| - 1])
  {
    var x, y := MembersText(ms[..|ms| - 1]), MembersText(ns[..|ns| - 1]);
    assert |ms| > 1 ==> (x + [COMMA])[..|x|] == x;
    assert |ns| > 1 ==> (y + [COMMA])[..|y|] == y;
    assert |ms| == 1 ==> x == [] && Before(ms) == [];
    assert |ns| == 1 ==> y == [] && Before(ns) == [];
  }

  lemma KeysArePlain(key: Key)
    requires !key.OtherKey?
    ensures QUOTE !in KeyBytes(key)
  {
    forall i | 0 <= i < |KeyBytes(key)| ensures KeyBytes(key)[i] != QUOTE {
      assert KeyText(key)[i] != '"';
    }
  }

  lemma HexIsPlain(bytes: seq<Byte>)
    ensures QUOTE !in HexEncode(bytes)
  {
    HexRoundTrip(bytes);
  }

  /** What `PrintJsonOutput` prints determines the five buffers. */
  lemma PrintedLineDetermines(a: seq<seq<Byte>>, b: seq<seq<Byte>>)
    requires |a| == 5 && |b| == 5
    requires JsonLine(PlatformMembers(a[0], a[1], a[2], a[3], a[4])) ==
             JsonLine(PlatformMembers(b[0], b[1], b[2], b[3], b[4]))
    ensures a == b
  {
    var ms, ns := PlatformMembers(a[0], a[1], a[2], a[3], a[4]), PlatformMembers(b[0], b[1], b[2], b[3], b[4]);
    assert JsonLine(ms)[1..|JsonLine(ms)| - 2] == MembersText(ms);
    assert JsonLine(ns)[1..|JsonLine(ns)| - 2] == MembersText(ns);
    forall i | 0 <= i < 5 ensures Plain(ms[i]) && Plain(ns[i]) {
      KeysArePlain(ms[i].key);
      HexIsPlain(a[i]);
      HexIsPlain(b[i]);
    }
    MembersTextInjective(ms, ns);
    forall i | 0 <= i < 5 ensures a[i] == b[i] {
      assert ms[i].text == HexEncode(a[i]) && ns[i].text == HexEncode(b[i]);
      HexEncodeInjective(a[i], b[i]);
    }
  }

  /** Five texts in braces, with commas between them, and a newline. */
  function Braced(a: seq<Byte>, b: seq<Byte>, c: seq<Byte>, d: seq<Byte>, e: seq<Byte>): seq<Byte> {
    var comma := Ascii(",");
    Ascii("{") + (a + comma + b + comma + c + comma + d + comma + e) + Ascii("}\n")
  }

  lemma FiveBraced(ms: seq<Member>)
    requires |ms| == 5
    ensures JsonLine(ms) ==
            Braced(MemberText(ms[0]), MemberText(ms[1]), MemberText(ms[2]), MemberText(ms[3]), MemberText(ms[4]))
  {
    FiveMembers(ms);
    assert Ascii("{") == [123] && Ascii(",") == [44] && Ascii("}\n") == [125, 10];
  }

  /** The printed line, written out. */
  lemma PrintedLineIs(cpuSvn: seq<Byte>, encPpid: seq<Byte>, pceId: seq<Byte>, pceSvn: seq<Byte>, qeId: seq<Byte>)
    ensures JsonLine(PlatformMembers(cpuSvn, encPpid, pceId, pceSvn, qeId)) ==
            Braced(Quoted("cpu_svn", cpuSvn), Quoted("enc_ppid", encPpid), Quoted("pce_id", pceId),
                   Quoted("pce_svn", pceSvn), Quoted("qe_id", qeId))
  {
    FiveBraced(PlatformMembers(cpuSvn, encPpid, pceId, pceSvn, qeId));
    QuotedIs(CpuSvn, cpuSvn);
    QuotedIs(EncPpid, encPpid);
    QuotedIs(PceId, pceId);
    QuotedIs(PceSvn, pceSvn);
    QuotedIs(QeId, qeId);
  }

  /** `"name":"hex"` */
  function Quoted(name: string, bytes: seq<Byte>): seq<Byte> {
    Ascii("\"") + Ascii(name) + Ascii("\":\"") + HexEncode(bytes) + Ascii("\"")
  }

  lemma QuotedIs(key: Key, bytes: seq<Byte>)
    ensures MemberText(Member(key, HexEncode(bytes))) == Quoted(KeyText(key), bytes)
  {
    assert Ascii("\"") == [34] && Ascii("\":\"") == [34, 58, 34];
  }

  lemma FirstMember(ms: seq<Member>)
    requires ms != []
    ensures MembersText(ms[..1]) == MemberText(ms[0])
  {
    MembersTextSnoc(ms, 0);
    assert ms[..0] == [];
  }

  lemma NextText(ms: seq<Member>, i: nat)
    requires 0 < i < |ms|
    ensures MembersText(ms[..i + 1]) == MembersText(ms[..i]) + [44] + MemberText(ms[i])
  {
    MembersTextSnoc(ms, i);
  }

  lemma ThreeMembers(ms: seq<Member>)
    requires |ms| >= 3
    ensures MembersText(ms[..3]) == MemberText(ms[0]) + [44] + MemberText(ms[1]) + [44] + MemberText(ms[2])
  {
    FirstMember(ms);
    NextText(ms, 1);
    NextText(ms, 2);
  }

  lemma FourMembers(ms: seq<Member>)
    requires |ms| >= 4
    ensures MembersText(ms[..4]) ==
            MemberText(ms[0]) + [44] + MemberText(ms[1]) + [44] + MemberText(ms[2]) + [44] + MemberText(ms[3])
  {
    ThreeMembers(ms);
    NextText(ms, 3);
  }

  lemma FiveMembers(ms: seq<Member>)
    requires |ms| == 5
    ensures MembersText(ms) == MemberText(ms[0]) + [44] + MemberText(ms[1]) + [44] + MemberText(ms[2]) + [44] +
                               MemberText(ms[3]) + [44] + MemberText(ms[4])
  {
    FourMembers(ms);
    NextText(ms, 4);
    assert ms[..5] == ms;
  }

  // ---------- get_platform_info in main.rs ----------

  datatype JsonValue = JsonString(text: seq<Byte>) | OtherJson

  type JsonObject = map<Key, JsonValue>

  /** The object that a JSON parser reads from the text of `ms`. */
  function ObjectOf(ms: seq<Member>): JsonObject {
    if ms == [] then map[]
    else ObjectOf(ms[..|ms| - 1])[ms[|ms| - 1].key := JsonString(ms[|ms| - 1].text)]
  }

  datatype PlatformInfo = PlatformInfo(cpuSvn: Line, pceId: Line, pceSvn: Line, qeId: Line)

  datatype InfoError = MissingMember(key: Key) | BadMember(key: Key)

  predicate HasText(json: JsonObject, key: Key) {
    key in json && json[key].JsonString?
  }

  function CopyFixedHexField(value: seq<Byte>, n: nat, key: Key): (r: Result<Line, InfoError>)
    requires n < 100
    ensures r.Ok? <==> |value| == n && AllHex(value)
    ensures r.Ok? ==> r.value == value
  {
    if !IsFixedLenHex(value, n) then Err(BadMember(key)) else HexIsUtf8(value); Ok(value)
  }

  function GetPlatformInfo(json: JsonObject): Result<PlatformInfo, InfoError> {
    if !HasText(json, CpuSvn) then Err(MissingMember(CpuSvn))
    else if !HasText(json, PceId) then Err(MissingMember(PceId))
    else if !HasText(json, PceSvn) then Err(MissingMember(PceSvn))
    else if !HasText(json, QeId) then Err(MissingMember(QeId))
    else
      var cpuSvn := CopyFixedHexField(json[CpuSvn].text, 32, CpuSvn);
      var pceId := CopyFixedHexField(json[PceId].text, 4, PceId);
      var pceSvn := CopyFixedHexField(json[PceSvn].text, 4, PceSvn);
      var qeId := CopyFixedHexField(json[QeId].text, 32, QeId);
      if cpuSvn.Err? then Err(cpuSvn.error)
      else if pceId.Err? then Err(pceId.error)
      else if pceSvn.Err? then Err(pceSvn.error)
      else if qeId.Err? then Err(qeId.error)
      else Ok(PlatformInfo(cpuSvn.value, pceId.value, pceSvn.value, qeId.value))
  }

  predicate HexText(json: JsonObject, key: Key, n: nat) {
    key in json && json[key].JsonString? && |json[key].text| == n && AllHex(json[key].text)
  }

  /** The reader accepts exactly the objects whose four members are hex texts of 32, 4, 4 and 32
      characters, and takes them over unchanged. */
  lemma InfoExact(json: JsonObject)
    ensures GetPlatformInfo(json).Ok? <==>
            HexText(json, CpuSvn, 32) && HexText(json, PceId, 4) && HexText(json, PceSvn, 4) && HexText(json, QeId, 32)
    ensures GetPlatformInfo(json).Ok? ==>
              var info := GetPlatformInfo(json).value;
              && info.cpuSvn == json[CpuSvn].text && info.pceId == json[PceId].text
              && info.pceSvn == json[PceSvn].text && info.qeId == json[QeId].text
  {
  }

  // ---------- get_platform_manifest ----------

  datatype EfiFile = Absent | Unreadable | Contents(bytes: seq<Byte>)

  datatype ManifestError = OpenFailed | ShortHeader | SizeMismatch(declared: nat, found: nat)

  /** Layout: attributes (4), version (2), size (2, little endian), structure data. */
  function GetPlatformManifest(file: EfiFile): Result<Option<seq<Byte>>, ManifestError> {
    match file
    case Absent => Ok(None)
    case Unreadable => Err(OpenFailed)
    case Contents(bytes) =>
      if |bytes| < 8 then Err(ShortHeader)
      else
        var declared := LeValue(bytes[6..8]);
        var structure := bytes[8..];
        if |structure| != declared then Err(SizeMismatch(declared, |structure|))
        else Ok(Some(HexEncode(structure)))
  }

  function EfiVariable(prefix: seq<Byte>, structure: seq<Byte>): seq<Byte> {
    prefix + LeBytes(|structure|, 2) + structure
  }

  /** Reading the variable accepts exactly the files whose size field counts the bytes after the
      header, and the manifest it returns decodes to those bytes. */
  lemma ManifestExact(bytes: seq<Byte>)
    ensures GetPlatformManifest(Contents(bytes)).Ok? <==>
            exists prefix, structure :: |prefix| == 6 && |structure| <= 65535 && bytes == EfiVariable(prefix, structure)
    ensures forall prefix, structure ::
              |prefix| == 6 && |structure| <= 65535 && bytes == EfiVariable(prefix, structure) ==>
              GetPlatformManifest(Contents(bytes)) == Ok(Some(HexEncode(structure)))
  {
    Limits();
    forall prefix, structure | |prefix| == 6 && |structure| <= 65535 && bytes == EfiVariable(prefix, structure)
      ensures GetPlatformManifest(Contents(bytes)) == Ok(Some(HexEncode(structure)))
    {
      assert bytes[6..8] == LeBytes(|structure|, 2);
      LeValueOfBytes(|structure|, 2);
      assert bytes[8..] == structure;
    }
    if GetPlatformManifest(Contents(bytes)).Ok? {
      LeBytesOfValue(bytes[6..8]);
      assert |bytes[..6]| == 6;
      assert bytes == EfiVariable(bytes[..6], bytes[8..]);
    }
  }

  lemma TwoBytes(s: seq<Byte>)
    requires |s| == 2
    ensures LeValue(s) == s[0] as int + 256 * (s[1] as int)
  {
    assert s[1..] == [s[1]] && LeValue([s[1]]) == s[1];
  }

  /** The size stands in bytes 6 and 7, the less significant first, and the structure follows it; an
      absent variable is no error, one that cannot be opened is. */
  lemma ManifestBytes(file: EfiFile)
    ensures file.Absent? ==> GetPlatformManifest(file) == Ok(None)
    ensures file.Unreadable? ==> GetPlatformManifest(file).Err?
    ensures file.Contents? ==>
              var b := file.bytes;
              && (GetPlatformManifest(file).Ok? <==> |b| >= 8 && |b| - 8 == b[6] as int + 256 * (b[7] as int))
              && (GetPlatformManifest(file).Ok? ==> GetPlatformManifest(file) == Ok(Some(HexEncode(b[8..]))))
  {
    if file.Contents? && |file.bytes| >= 8 {
      TwoBytes(file.bytes[6..8]);
    }
  }

  // ---------- create_secret ----------

  function SecretDataOf(info: PlatformInfo, manifest: Option<seq<Byte>>): map<Key, seq<Byte>> {
    var base := map[EncPpid := [], PceId := info.pceId, CpuSvn := info.cpuSvn,
                    PceSvn := info.pceSvn, QeId := info.qeId];
    if manifest.Some? then base[PlatformManifest := manifest.value] else base
  }

  lemma PlatformObject(cpuSvn: seq<Byte>, encPpid: seq<Byte>, pceId: seq<Byte>, pceSvn: seq<Byte>, qeId: seq<Byte>)
    ensures ObjectOf(PlatformMembers(cpuSvn, encPpid, pceId, pceSvn, qeId)) ==
            map[CpuSvn := JsonString(HexEncode(cpuSvn)), EncPpid := JsonString(HexEncode(encPpid)),
                PceId := JsonString(HexEncode(pceId)), PceSvn := JsonString(HexEncode(pceSvn)),
                QeId := JsonString(HexEncode(qeId))]
  {
    var ms := PlatformMembers(cpuSvn, encPpid, pceId, pceSvn, qeId);
    assert ms[..4][..3] == ms[..3] && ms[..3][..2] == ms[..2] && ms[..2][..1] == ms[..1] && ms[..1][..0] == [];
    assert ObjectOf(ms[..1]) == map[ms[0].key := JsonString(ms[0].text)];
    assert ObjectOf(ms[..2]) == ObjectOf(ms[..1])[ms[1].key := JsonString(ms[1].text)];
    assert ObjectOf(ms[..3]) == ObjectOf(ms[..2])[ms[2].key := JsonString(ms[2].text)];
    assert ObjectOf(ms[..4]) == ObjectOf(ms[..3])[ms[3].key := JsonString(ms[3].text)];
    assert ObjectOf(ms) == ObjectOf(ms[..4])[ms[4].key := JsonString(ms[4].text)];
  }

  ghost predicate HoldsHex(json: JsonObject, key: Key, bytes: seq<Byte>) {
    HasText(json, key) && json[key].text == HexEncode(bytes)
  }

  lemma PrintedMembers(cpuSvn: seq<Byte>, encPpid: seq<Byte>, pceId: seq<Byte>, pceSvn: seq<Byte>, qeId: seq<Byte>)
    returns (json: JsonObject)
    ensures json == ObjectOf(PlatformMembers(cpuSvn, encPpid, pceId, pceSvn, qeId))
    ensures HoldsHex(json, CpuSvn, cpuSvn) && HoldsHex(json, PceId, pceId)
    ensures HoldsHex(json, PceSvn, pceSvn) && HoldsHex(json, QeId, qeId)
  {
    PlatformObject(cpuSvn, encPpid, pceId, pceSvn, qeId);
    json := map[CpuSvn := JsonString(HexEncode(cpuSvn)), EncPpid := JsonString(HexEncode(encPpid)),
                PceId := JsonString(HexEncode(pceId)), PceSvn := JsonString(HexEncode(pceSvn)),
                QeId := JsonString(HexEncode(qeId))];
  }

  /** What the printer writes is accepted by the reader, field by field. */
  lemma HexInfoIsRead(json: JsonObject, cpuSvn: seq<Byte>, pceId: seq<Byte>, pceSvn: seq<Byte>, qeId: seq<Byte>)
    requires |cpuSvn| == 16 && |pceId| == 2 && |pceSvn| == 2 && |qeId| == 16
    requires HoldsHex(json, CpuSvn, cpuSvn) && HoldsHex(json, PceId, pceId)
    requires HoldsHex(json, PceSvn, pceSvn) && HoldsHex(json, QeId, qeId)
    ensures GetPlatformInfo(json).Ok?
    ensures var info := GetPlatformInfo(json).value;
            info.cpuSvn == HexEncode(cpuSvn) && info.pceId == HexEncode(pceId) && info.qeId == HexEncode(qeId)
  {
  }

  /** The request decodes to the bytes that the enclaves and the EFI variable hold. */
  ghost predicate Carries(request: Request, structure: seq<Byte>, cpuSvn: seq<Byte>, pceId: seq<Byte>) {
    && ValidManifest(request.platformManifest) && HexDecode(request.platformManifest) == structure
    && IsFixedLenHex(request.cpuSvn, 32) && HexDecode(request.cpuSvn) == cpuSvn
    && IsFixedLenHex(request.pceId, 4) && HexDecode(request.pceId) == pceId
  }

  lemma HexSecretIsPrepared(name: seq<Byte>, data: SecretData, cpuSvn: seq<Byte>, pceId: seq<Byte>,
                            structure: seq<Byte>)
    requires |cpuSvn| == 16 && |pceId| == 2 && |structure| <= 65535 && IsFixedLenHex(name, 32)
    requires CpuSvn in data && data[CpuSvn] == HexEncode(cpuSvn)
    requires PceId in data && data[PceId] == HexEncode(pceId)
    requires PlatformManifest in data && data[PlatformManifest] == HexEncode(structure)
    ensures var prepared := PrepareRegistration(name, data);
            && (prepared.Ok? <==> structure != [])
            && (prepared.Ok? ==> Carries(prepared.value, structure, cpuSvn, pceId))
  {
    HexRoundTrip(cpuSvn);
    HexRoundTrip(pceId);
    HexRoundTrip(structure);
    PrepareExact(name, data);
  }

  /** The three programs agree: whatever the enclaves and the EFI variable hold, the secret that
      get-platforms writes is accepted by the registrar exactly when the structure is not empty,
      and the request then decodes to the original bytes. */
  lemma ProducerMeetsConsumer(cpuSvn: seq<Byte>, encPpid: seq<Byte>, pceId: seq<Byte>, pceSvn: seq<Byte>,
                              qeId: seq<Byte>, prefix: seq<Byte>, structure: seq<Byte>)
    requires |cpuSvn| == 16 && |encPpid| == 384 && |pceId| == 2 && |pceSvn| == 2 && |qeId| == 16
    requires |prefix| == 6 && |structure| <= 65535
    ensures var info := GetPlatformInfo(ObjectOf(PlatformMembers(cpuSvn, encPpid, pceId, pceSvn, qeId)));
            var manifest := GetPlatformManifest(Contents(EfiVariable(prefix, structure)));
            && info.Ok? && manifest.Ok?
            && var prepared := PrepareRegistration(info.value.qeId, SecretDataOf(info.value, manifest.value));
            && (prepared.Ok? <==> structure != [])
            && (prepared.Ok? ==> Carries(prepared.value, structure, cpuSvn, pceId))
  {
    var json := PrintedMembers(cpuSvn, encPpid, pceId, pceSvn, qeId);
    HexInfoIsRead(json, cpuSvn, pceId, pceSvn, qeId);
    VariableIsRead(prefix, structure);
    InfoIsPrepared(GetPlatformInfo(json).value, cpuSvn, pceId, qeId, structure);
  }

  lemma VariableIsRead(prefix: seq<Byte>, structure: seq<Byte>)
    requires |prefix| == 6 && |structure| <= 65535
    ensures GetPlatformManifest(Contents(EfiVariable(prefix, structure))) == Ok(Some(HexEncode(structure)))
  {
    ManifestExact(EfiVariable(prefix, structure));
  }

  lemma InfoIsPrepared(info: PlatformInfo, cpuSvn: seq<Byte>, pceId: seq<Byte>, qeId: seq<Byte>, structure: seq<Byte>)
    requires |cpuSvn| == 16 && |pceId| == 2 && |qeId| == 16 && |structure| <= 65535
    requires info.cpuSvn == HexEncode(cpuSvn) && info.pceId == HexEncode(pceId) && info.qeId == HexEncode(qeId)
    ensures var prepared := PrepareRegistration(info.qeId, SecretDataOf(info, Some(HexEncode(structure))));
            && (prepared.Ok? <==> structure != [])
            && (prepared.Ok? ==> Carries(prepared.value, structure, cpuSvn, pceId))
  {
    HexRoundTrip(qeId);
    SecretFits(info, HexEncode(structure));
    HexSecretIsPrepared(info.qeId, SecretDataOf(info, Some(HexEncode(structure))), cpuSvn, pceId, structure);
  }

  lemma SecretFits(info: PlatformInfo, manifest: seq<Byte>)
    requires |manifest| < 0x8000_0000_0000_0000
    ensures var data := SecretDataOf(info, Some(manifest));
            && (forall k :: k in data ==> |data[k]| < 0x8000_0000_0000_0000)
            && CpuSvn in data && data[CpuSvn] == info.cpuSvn && PceId in data && data[PceId] == info.pceId
            && PlatformManifest in data && data[PlatformManifest] == manifest
  {
  }

  /** The other keys of the secret: the PCE SVN and QE ID read, and an empty encrypted PPID. Without the
      EFI variable there is no manifest, and the registrar rejects the data. */
  lemma SecretKeys(info: PlatformInfo, manifest: Option<seq<Byte>>)
    ensures var data := SecretDataOf(info, manifest);
            && data.Keys == {EncPpid, PceId, CpuSvn, PceSvn, QeId} + (if manifest.Some? then {PlatformManifest} else {})
            && data[EncPpid] == [] && data[PceId] == info.pceId && data[CpuSvn] == info.cpuSvn
            && data[PceSvn] == info.pceSvn && data[QeId] == info.qeId
            && (manifest.Some? ==> data[PlatformManifest] == manifest.value)
            && (manifest.None? ==> PrepareRegistration(info.qeId, data).Err?)
  {
  }

  /** The registrar's length bound is the longest manifest the 16-bit size field can declare: the
      bound is reached, and one more byte of structure data is accepted by neither side. */
  lemma ManifestBoundIsTight(prefix: seq<Byte>, structure: seq<Byte>, name: seq<Byte>, data: SecretData)
    requires |prefix| == 6 && |structure| >= 65535
    requires PlatformManifest in data && data[PlatformManifest] == HexEncode(structure)
    requires IsFixedLenHex(name, 32)
    requires CpuSvn in data && IsFixedLenHex(data[CpuSvn], 32)
    requires PceId in data && IsFixedLenHex(data[PceId], 4)
    ensures |structure| == 65535 <==> GetPlatformManifest(Contents(EfiVariable(prefix, structure))).Ok?
    ensures |structure| == 65535 <==> PrepareRegistration(name, data).Ok?
  {
    HexRoundTrip(structure);
    PrepareExact(name, data);
    var bytes := EfiVariable(prefix, structure);
    ManifestExact(bytes);
    if GetPlatformManifest(Contents(bytes)).Ok? {
      var p, s :| |p| == 6 && |s| <= 65535 && bytes == EfiVariable(p, s);
      assert |bytes| == 8 + |s|;
    }
  }
}
