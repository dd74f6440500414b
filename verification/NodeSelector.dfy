/** Node selectors: the admission rules of the custom resource, the operator's parser for the
    admitted list, and the label-value check of `get-platforms`. */
module NodeSelector {
  import opened Results
  import Bytes

  // ---------- regular expressions, as used by the admission rules ----------

  datatype Class = Lower | LowerDash | Alnum | LabelChar | Only(c: char) | AllBut(c: char)

  predicate IsLower(c: char) { 'a' <= c <= 'z' || '0' <= c <= '9' }
  predicate IsAlnum(c: char) { 'A' <= c <= 'Z' || IsLower(c) }

  predicate In(k: Class, c: char) {
    match k
    case Lower => IsLower(c)
    case LowerDash => c == '-' || IsLower(c)
    case Alnum => IsAlnum(c)
    case LabelChar => c == '-' || c == '_' || c == '.' || IsAlnum(c)
    case Only(d) => c == d
    case AllBut(d) => c != d
  }

  datatype Regex =
    | Chars(k: Class) | Cat(left: Regex, right: Regex) | Opt(body: Regex) | Star(body: Regex)
    | Between(body: Regex, lo: nat, hi: nat)

  /** The whole of `s` is in the language of `r`. */
  ghost predicate Matches(r: Regex, s: string)
    decreases r, 0, |s|
  {
    match r
    case Chars(k) => |s| == 1 && In(k, s[0])
    case Cat(a, b) => exists i :: 0 <= i <= |s| && Matches(a, s[..i]) && Matches(b, s[i..])
    case Opt(a) => s == "" || Matches(a, s)
    case Star(a) => s == "" || exists i :: 0 < i <= |s| && Matches(a, s[..i]) && Matches(r, s[i..])
    case Between(a, lo, hi) => MatchesTimes(a, lo, hi, s)
  }

  ghost predicate MatchesTimes(r: Regex, lo: nat, hi: nat, s: string)
    decreases r, hi + 1, |s|
  {
    || (lo == 0 && s == "")
    || (hi > 0 && exists i :: 0 <= i <= |s| && Matches(r, s[..i]) &&
                              MatchesTimes(r, if lo == 0 then 0 else lo - 1, hi - 1, s[i..]))
  }

  /** Character `c` occurs in the pattern. */
  predicate Uses(r: Regex, c: char) {
    match r
    case Chars(k) => In(k, c)
    case Cat(a, b) => Uses(a, c) || Uses(b, c)
    case Opt(a) => Uses(a, c)
    case Star(a) => Uses(a, c)
    case Between(a, _, _) => Uses(a, c)
  }

  lemma CharsOfSplit(s: string, i: nat)
    requires i <= |s|
    ensures forall c :: c in s ==> c in s[..i] || c in s[i..]
  {
  }

  lemma {:induction false} MatchedChars(r: Regex, s: string)
    requires Matches(r, s)
    ensures forall c :: c in s ==> Uses(r, c)
    decreases r, 0, |s|
  {
    match r
    case Chars(k) =>
    case Cat(a, b) =>
      var i :| 0 <= i <= |s| && Matches(a, s[..i]) && Matches(b, s[i..]);
      MatchedChars(a, s[..i]);
      MatchedChars(b, s[i..]);
      CharsOfSplit(s, i);
    case Opt(a) => if s != "" { MatchedChars(a, s); }
    case Star(a) =>
      if s != "" {
        var i :| 0 < i <= |s| && Matches(a, s[..i]) && Matches(r, s[i..]);
        MatchedChars(a, s[..i]);
        MatchedChars(r, s[i..]);
        CharsOfSplit(s, i);
      }
    case Between(a, lo, hi) => TimesChars(a, lo, hi, s);
  }

  lemma {:induction false} TimesChars(r: Regex, lo: nat, hi: nat, s: string)
    requires MatchesTimes(r, lo, hi, s)
    ensures forall c :: c in s ==> Uses(r, c)
    decreases r, hi + 1, |s|
  {
    if s == "" {
    } else {
      var i :| 0 <= i <= |s| && Matches(r, s[..i]) &&
               MatchesTimes(r, if lo == 0 then 0 else lo - 1, hi - 1, s[i..]);
      MatchedChars(r, s[..i]);
      TimesChars(r, if lo == 0 then 0 else lo - 1, hi - 1, s[i..]);
      CharsOfSplit(s, i);
    }
  }

  lemma {:induction false} UpToChars(k: Class, n: nat, s: string)
    ensures MatchesTimes(Chars(k), 0, n, s) <==> |s| <= n && forall c :: c in s ==> In(k, c)
    decreases n
  {
    if MatchesTimes(Chars(k), 0, n, s) {
      TimesChars(Chars(k), 0, n, s);
      if s != "" {
        var i :| 0 <= i <= |s| && Matches(Chars(k), s[..i]) && MatchesTimes(Chars(k), 0, n - 1, s[i..]);
        UpToChars(k, n - 1, s[i..]);
      }
    } else if s != "" && n > 0 && forall c :: c in s ==> In(k, c) {
      UpToChars(k, n - 1, s[1..]);
      assert s[0] in s && Matches(Chars(k), s[..1]);
    }
  }

  // ---------- the admission rules ----------

  /** One end character, or two around up to 61 middle ones. */
  const NAME_PART: Regex := Name(Alnum, LabelChar)

  function Name(ends: Class, middle: Class): Regex {
    Cat(Chars(ends), Opt(Tail(ends, middle)))
  }

  function Tail(ends: Class, middle: Class): Regex {
    Cat(Between(Chars(middle), 0, 61), Chars(ends))
  }

  const DNS_LABEL: Regex := Name(Lower, LowerDash)
  const DOT_LABEL: Regex := Cat(Chars(Only('.')), DNS_LABEL)
  const LABELS: Regex := Cat(DNS_LABEL, Star(DOT_LABEL))
  const DNS_PREFIX: Regex := Cat(LABELS, Chars(Only('/')))
  const KEY_PART: Regex := Cat(Opt(DNS_PREFIX), NAME_PART)
  const ENTRY: Regex := Cat(KEY_PART, Cat(Chars(Only('=')), NAME_PART))
  const SHORT_PREFIX: Regex := Cat(Between(Chars(AllBut('/')), 1, 253), Chars(Only('/')))

  ghost predicate AdmittedEntry(s: string) {
    && |s| <= 381
    && Matches(ENTRY, s)
    && ('/' in s ==> exists i :: 0 <= i <= |s| && Matches(SHORT_PREFIX, s[..i]))
  }

  /** Position of the first '='; the length of `s` when there is none. */
  function Equals(s: string): (i: nat)
    ensures i <= |s| && (i < |s| ==> s[i] == '=') && '=' !in s[..i]
  {
    if s == "" || s[0] == '=' then 0 else
      var i := 1 + Equals(s[1..]);
      assert s[..i] == [s[0]] + s[1..][..i - 1];
      i
  }

  /** The text before the first '='. */
  function FirstPart(s: string): string { s[..Equals(s)] }

  ghost predicate OnlyAt(list: seq<string>, x: string, i: nat) {
    forall j :: 0 <= j < |list| ==> (FirstPart(list[j]) == FirstPart(x) <==> j == i)
  }

  /** Exactly one position of the list holds an entry with the key of `x`. */
  ghost predicate ExistsOne(list: seq<string>, x: string) {
    exists i: nat :: i < |list| && OnlyAt(list, x, i)
  }

  ghost predicate AdmittedList(list: seq<string>) {
    && |list| <= 16
    && (forall i :: 0 <= i < |list| ==> AdmittedEntry(list[i]))
    && (forall i :: 0 <= i < |list| ==> ExistsOne(list, list[i]))
  }

  // ---------- the parser ----------

  /** White space as `str::trim` sees it: the Unicode White_Space property. */
  predicate Space(c: char) {
    var n := c as int;
    9 <= n <= 13 || n == 0x20 || n == 0x85 || n == 0xA0 || n == 0x1680 || 0x2000 <= n <= 0x200A ||
    n == 0x2028 || n == 0x2029 || n == 0x202F || n == 0x205F || n == 0x3000
  }

  /** The 25 code points of that property. */
  lemma SpacesAre(c: char)
    ensures Space(c) <==>
            c as int in {0x09, 0x0A, 0x0B, 0x0C, 0x0D, 0x20, 0x85, 0xA0, 0x1680, 0x2000, 0x2001, 0x2002, 0x2003, 0x2004,
                         0x2005, 0x2006, 0x2007, 0x2008, 0x2009, 0x200A, 0x2028, 0x2029, 0x202F, 0x205F, 0x3000}
  {
  }

  function Trim(s: string): string {
    if s != "" && Space(s[0]) then Trim(s[1..])
    else if s != "" && Space(s[|s| - 1]) then Trim(s[..|s| - 1])
    else s
  }

  function KeyOf(s: string): string { Trim(FirstPart(s)) }

  function ValueOf(s: string): string {
    if Equals(s) < |s| then Trim(s[Equals(s) + 1..]) else ""
  }

  datatype Pair = Pair(key: string, value: string)

  function PairOf(s: string): Pair { Pair(KeyOf(s), ValueOf(s)) }

  predicate Parses(s: string) {
    '=' in s && KeyOf(s) != "" && ValueOf(s) != ""
  }

  function Pairs(list: seq<string>): (ps: seq<Pair>)
    ensures |ps| == |list|
  {
    seq(|list|, i requires 0 <= i < |list| => PairOf(list[i]))
  }

  /** `m` holds exactly the pairs, whose keys are distinct. */
  ghost predicate Gathers(ps: seq<Pair>, m: map<string, string>) {
    && (forall p :: p in ps ==> p.key in m && m[p.key] == p.value)
    && (forall k :: k in m ==> Pair(k, m[k]) in ps)
    && (forall i, j :: 0 <= i < j < |ps| ==> ps[i].key != ps[j].key)
    && |m| == |ps|
  }

  lemma GathersSnoc(ps: seq<Pair>, m: map<string, string>, p: Pair)
    requires Gathers(ps, m) && p.key !in m
    ensures Gathers(ps + [p], m[p.key := p.value])
  {
  }

  lemma GathersOnce(ps: seq<Pair>, m: map<string, string>, n: map<string, string>)
    requires Gathers(ps, m) && Gathers(ps, n)
    ensures m == n
  {
  }

  datatype SelectorError = NoEquals(selector: string) | EmptyPart(selector: string) | DuplicateKey(key: string)

  ghost predicate Parsed(list: seq<string>, m: map<string, string>) {
    (forall s :: s in list ==> Parses(s)) && Gathers(Pairs(list), m)
  }

  /** `e` reports selector `s`, reached when the selectors in `before` have been accepted. */
  ghost predicate Refused(before: seq<string>, s: string, e: SelectorError) {
    match e
    case NoEquals(t) => t == s && '=' !in s
    case EmptyPart(t) => t == s && '=' in s && !Parses(s)
    case DuplicateKey(k) => Parses(s) && k == KeyOf(s) && exists i :: 0 <= i < |before| && KeyOf(before[i]) == k
  }

  lemma EqualsIsFirst(s: string, i: nat)
    requires i < |s| && s[i] == '=' && '=' !in s[..i]
    ensures Equals(s) == i
  {
  }

  lemma EqualsFound(s: string)
    ensures '=' in s <==> Equals(s) < |s|
  {
  }

  lemma ParsedSnoc(list: seq<string>, m: map<string, string>, s: string)
    requires Parsed(list, m) && Parses(s) && KeyOf(s) !in m
    ensures Parsed(list + [s], m[KeyOf(s) := ValueOf(s)])
  {
    GathersSnoc(Pairs(list), m, PairOf(s));
    assert Pairs(list + [s]) == Pairs(list) + [PairOf(s)];
  }

  lemma KeyTaken(list: seq<string>, m: map<string, string>, k: string) returns (i: nat)
    requires Parsed(list, m) && k in m
    ensures i < |list| && KeyOf(list[i]) == k
  {
    i :| 0 <= i < |list| && Pairs(list)[i] == Pair(k, m[k]);
  }

  // ---------- specification: the selectors taken one at a time ----------

  function Split(s: string): Result<Pair, SelectorError> {
    if '=' !in s then Err(NoEquals(s))
    else if !Parses(s) then Err(EmptyPart(s))
    else Ok(PairOf(s))
  }

  function Insert(m: map<string, string>, s: string): Result<map<string, string>, SelectorError> {
    var pair := Split(s);
    if pair.Err? then Err(pair.error)
    else if pair.value.key in m then Err(DuplicateKey(pair.value.key))
    else Ok(m[pair.value.key := pair.value.value])
  }

  function Parse(list: seq<string>): Result<map<string, string>, SelectorError> {
    if list == [] then Ok(map[]) else
      var before := Parse(list[..|list| - 1]);
      if before.Err? then before else Insert(before.value, list[|list| - 1])
  }

  /** `split_once` at the first '=', then `trim` of both sides. */
  method SplitSelector(s: string) returns (r: Result<Pair, SelectorError>)
    ensures r == Split(s)
  {
    EqualsFound(s);
    var i := 0;
    while i < |s| && s[i] != '='
      invariant i <= |s| && '=' !in s[..i]
    {
      assert s[..i + 1] == s[..i] + [s[i]];
      i := i + 1;
    }
    if i == |s| {
      assert s[..i] == s;
      return Err(NoEquals(s));
    }
    EqualsIsFirst(s, i);
    var key, value := Trim(s[..i]), Trim(s[i + 1..]);
    if key == "" || value == "" {
      return Err(EmptyPart(s));
    }
    r := Ok(Pair(key, value));
  }

  method ParseNodeSelectors(list: seq<string>) returns (r: Result<map<string, string>, SelectorError>)
    ensures r == Parse(list)
  {
    var m: map<string, string> := map[];
    var i := 0;
    while i < |list|
      invariant 0 <= i <= |list|
      invariant Parse(list[..i]) == Ok(m)
    {
      assert list[..i + 1][..i] == list[..i];
      var pair := SplitSelector(list[i]);
      if pair.Err? {
        ErrorStays(list, i + 1);
        return Err(pair.error);
      }
      if pair.value.key in m {
        ErrorStays(list, i + 1);
        return Err(DuplicateKey(pair.value.key));
      }
      m := m[pair.value.key := pair.value.value];
      i := i + 1;
    }
    assert list[..i] == list;
    r := Ok(m);
  }

  lemma {:induction false} ErrorStays(list: seq<string>, i: nat)
    requires i <= |list| && Parse(list[..i]).Err?
    ensures Parse(list) == Parse(list[..i])
  {
    if i < |list| {
      var n := |list| - 1;
      assert list[..n][..i] == list[..i];
      ErrorStays(list[..n], i);
    } else {
      assert list[..i] == list;
    }
  }

  /** Entry `k` is refused, everything before it being acceptable. */
  ghost predicate RefusedAt(list: seq<string>, e: SelectorError, k: nat) {
    k < |list| && Refused(list[..k], list[k], e) && exists m :: Parsed(list[..k], m)
  }

  lemma RefusedEarlier(list: seq<string>, n: nat, e: SelectorError)
    requires n <= |list| && exists k: nat :: RefusedAt(list[..n], e, k)
    ensures exists k: nat :: RefusedAt(list, e, k)
  {
    var k: nat :| RefusedAt(list[..n], e, k);
    assert list[..n][..k] == list[..k];
    assert RefusedAt(list, e, k);
  }

  lemma RefusedLast(list: seq<string>, m: map<string, string>)
    requires list != [] && Parsed(list[..|list| - 1], m) && Insert(m, list[|list| - 1]).Err?
    ensures RefusedAt(list, Insert(m, list[|list| - 1]).error, |list| - 1)
  {
  }

  /** The parser accepts exactly the lists whose entries all parse and whose trimmed keys are
      distinct, and what it reports is the first entry that breaks this. */
  lemma {:induction false} ParseExact(list: seq<string>)
    ensures Parse(list).Ok? ==> Parsed(list, Parse(list).value)
    ensures Parse(list).Err? ==> exists k: nat :: RefusedAt(list, Parse(list).error, k)
  {
    if list == [] {
    } else {
      var n := |list| - 1;
      ParseExact(list[..n]);
      if Parse(list[..n]).Err? {
        RefusedEarlier(list, n, Parse(list).error);
      } else if Parse(list).Err? {
        RefusedLast(list, Parse(list[..n]).value);
      } else {
        ParsedSnoc(list[..n], Parse(list[..n]).value, list[n]);
        assert list == list[..n] + [list[n]];
      }
    }
  }

  /** A list has one outcome: a parsed list has a single map and no entry of it is refused. */
  lemma OneOutcome(list: seq<string>, m: map<string, string>, n: map<string, string>, k: nat, e: SelectorError)
    requires Parsed(list, m)
    ensures Parsed(list, n) ==> m == n
    ensures k < |list| ==> !Refused(list[..k], list[k], e)
  {
    if Parsed(list, n) {
      GathersOnce(Pairs(list), m, n);
    }
    if k < |list| {
      assert list[k] in list;
      forall i | 0 <= i < k ensures KeyOf(list[i]) != KeyOf(list[k]) {
        assert Pairs(list)[i].key != Pairs(list)[k].key;
      }
    }
  }

  lemma ParsesExactly(list: seq<string>, m: map<string, string>)
    ensures Parse(list) == Ok(m) <==> Parsed(list, m)
  {
    ParseExact(list);
    if Parsed(list, m) {
      if Parse(list).Ok? {
        OneOutcome(list, m, Parse(list).value, 0, NoEquals(""));
      } else {
        var k: nat :| RefusedAt(list, Parse(list).error, k);
        OneOutcome(list, m, m, k, Parse(list).error);
      }
    }
  }

  predicate AllSpaces(s: string) {
    forall c :: c in s ==> Space(c)
  }

  lemma Wrapped(a: string, b: string, c: string, d: string)
    ensures a + (b + c + d) == (a + b) + c + d
  {
  }

  /** Trimming takes off white space at both ends and nothing else. */
  lemma {:induction false} TrimExact(s: string) returns (before: string, after: string)
    ensures s == before + Trim(s) + after && AllSpaces(before) && AllSpaces(after)
    ensures Trim(s) != "" ==> !Space(Trim(s)[0]) && !Space(Trim(s)[|Trim(s)| - 1])
    decreases |s|
  {
    if s != "" && Space(s[0]) {
      var inner;
      inner, after := TrimExact(s[1..]);
      before := [s[0]] + inner;
      Wrapped([s[0]], inner, Trim(s), after);
      assert s == [s[0]] + s[1..];
    } else if s != "" && Space(s[|s| - 1]) {
      var inner;
      before, inner := TrimExact(s[..|s| - 1]);
      after := inner + [s[|s| - 1]];
      assert before + Trim(s) + (inner + [s[|s| - 1]]) == before + Trim(s) + inner + [s[|s| - 1]];
      assert s == s[..|s| - 1] + [s[|s| - 1]];
    } else {
      before, after := "", "";
      assert s == "" + s + "";
    }
  }

  predicate Trimmed(s: string) {
    s != "" ==> !Space(s[0]) && !Space(s[|s| - 1])
  }

  /** The key and the value of a selector: what is before and after its first `=`, without the white
      space around. */
  lemma PartsExact(s: string) returns (a: string, b: string, c: string, d: string)
    requires '=' in s
    ensures s == (a + KeyOf(s) + b) + "=" + (c + ValueOf(s) + d) && '=' !in a + KeyOf(s) + b
    ensures AllSpaces(a) && AllSpaces(b) && AllSpaces(c) && AllSpaces(d)
    ensures Trimmed(KeyOf(s)) && Trimmed(ValueOf(s))
  {
    EqualsFound(s);
    var first, last := FirstPart(s), s[Equals(s) + 1..];
    AtEquals(s, first, last);
    a, b := TrimExact(first);
    c, d := TrimExact(last);
  }

  lemma AtEquals(s: string, first: string, last: string)
    requires Equals(s) < |s| && first == s[..Equals(s)] && last == s[Equals(s) + 1..]
    ensures s == first + "=" + last && '=' !in first
  {
    SplitAt(s, Equals(s));
  }

  lemma SplitAt(s: string, i: nat)
    requires i < |s|
    ensures s == s[..i] + [s[i]] + s[i + 1..]
  {
  }

  // ---------- every admitted list parses ----------

  lemma TrimKeeps(s: string)
    requires forall c :: c in s ==> !Space(c)
    ensures Trim(s) == s
  {
  }

  /** Names are not empty, and hold only label characters. */
  lemma NameShape(ends: Class, middle: Class, s: string)
    requires Matches(Name(ends, middle), s) && forall c :: In(ends, c) ==> In(middle, c)
    ensures s != "" && forall c :: c in s ==> In(middle, c)
  {
    MatchedChars(Name(ends, middle), s);
    forall c | c in s ensures In(middle, c) {
      NameUses(ends, middle, c);
    }
  }

  lemma NameUses(ends: Class, middle: Class, c: char)
    ensures Uses(Name(ends, middle), c) <==> In(ends, c) || In(middle, c)
  {
    var e, b := Chars(ends), Between(Chars(middle), 0, 61);
    assert Uses(e, c) <==> In(ends, c);
    assert Uses(b, c) == Uses(Chars(middle), c) == In(middle, c);
    assert Uses(Opt(Cat(b, e)), c) == Uses(Cat(b, e), c) == (Uses(b, c) || Uses(e, c));
  }

  lemma KeyUses(c: char)
    requires Uses(KEY_PART, c)
    ensures In(LabelChar, c) || c == '/'
  {
    NameUses(Lower, LowerDash, c);
    NameUses(Alnum, LabelChar, c);
    var dots := Cat(Chars(Only('.')), DNS_LABEL);
    assert Uses(dots, c) <==> c == '.' || Uses(DNS_LABEL, c);
    assert Uses(Cat(DNS_LABEL, Star(dots)), c) <==> c == '.' || Uses(DNS_LABEL, c);
    assert Uses(DNS_PREFIX, c) <==> c == '.' || c == '/' || Uses(DNS_LABEL, c);
  }

  lemma NotSpace(c: char)
    requires In(LabelChar, c) || c == '/'
    ensures !Space(c) && c != '='
  {
  }

  lemma CatSplits(a: Regex, b: Regex, s: string) returns (i: nat)
    requires Matches(Cat(a, b), s)
    ensures i <= |s| && Matches(a, s[..i]) && Matches(b, s[i..])
  {
    i :| 0 <= i <= |s| && Matches(a, s[..i]) && Matches(b, s[i..]);
  }

  lemma EntryParts(s: string) returns (key: string, value: string)
    requires Matches(ENTRY, s)
    ensures s == key + "=" + value && Matches(KEY_PART, key) && Matches(NAME_PART, value)
  {
    var equals := Chars(Only('='));
    var i := CatSplits(KEY_PART, Cat(equals, NAME_PART), s);
    var rest := s[i..];
    var j := CatSplits(equals, NAME_PART, rest);
    assert rest[..j] == "=" by { assert rest[..j][0] == '='; }
    key, value := s[..i], rest[j..];
    assert rest == "=" + value;
  }

  lemma PartsSplit(key: string, value: string)
    requires key != "" && '=' !in key && Trim(key) == key && value != "" && Trim(value) == value
    ensures var s := key + "=" + value; Parses(s) && FirstPart(s) == KeyOf(s) == key && ValueOf(s) == value
  {
    var s, n := key + "=" + value, |key|;
    assert s[n] == '=' && s[..n] == key && s[n + 1..] == value;
    EqualsIsFirst(s, n);
  }

  /** An entry in the language of the rule splits at its only '=' into untrimmable parts. */
  lemma EntrySplits(s: string)
    requires Matches(ENTRY, s)
    ensures Parses(s) && s == KeyOf(s) + "=" + ValueOf(s) && KeyOf(s) == FirstPart(s)
    ensures Matches(KEY_PART, KeyOf(s)) && Matches(NAME_PART, ValueOf(s))
  {
    var key, value := EntryParts(s);
    KeyKept(key);
    ValueKept(value);
    PartsSplit(key, value);
  }

  lemma KeyKept(key: string)
    requires Matches(KEY_PART, key)
    ensures key != "" && '=' !in key && Trim(key) == key
  {
    var p :| 0 <= p <= |key| && Matches(Opt(DNS_PREFIX), key[..p]) && Matches(NAME_PART, key[p..]);
    NameShape(Alnum, LabelChar, key[p..]);
    MatchedChars(KEY_PART, key);
    forall c | c in key ensures !Space(c) && c != '=' {
      KeyUses(c);
      NotSpace(c);
    }
    TrimKeeps(key);
  }

  lemma ValueKept(value: string)
    requires Matches(NAME_PART, value)
    ensures value != "" && Trim(value) == value
  {
    NameShape(Alnum, LabelChar, value);
    forall c | c in value ensures !Space(c) {
      NotSpace(c);
    }
    TrimKeeps(value);
  }

  lemma AdmittedKeysDistinct(list: seq<string>, i: nat, j: nat)
    requires AdmittedList(list) && i < j < |list|
    ensures KeyOf(list[i]) != KeyOf(list[j])
  {
    EntrySplits(list[i]);
    EntrySplits(list[j]);
    assert ExistsOne(list, list[i]);
  }

  /** An admitted list is never refused: no entry of it can be reported. */
  lemma AdmittedNotRefused(list: seq<string>, k: nat, e: SelectorError)
    requires AdmittedList(list) && k < |list|
    ensures !Refused(list[..k], list[k], e)
  {
    EntrySplits(list[k]);
    forall i | 0 <= i < k ensures KeyOf(list[i]) != KeyOf(list[k]) {
      AdmittedKeysDistinct(list, i, k);
    }
  }

  /** What an admitted list parses to: one entry per element, and joining the entries with '='
      gives the elements back. */
  lemma AdmittedJoins(list: seq<string>, m: map<string, string>)
    requires AdmittedList(list) && Parsed(list, m)
    ensures |m| == |list|
    ensures forall s :: s in list <==> exists k :: k in m && s == k + "=" + m[k]
    ensures forall k :: k in m ==> Matches(KEY_PART, k) && Matches(NAME_PART, m[k])
  {
    forall s | s in list
      ensures KeyOf(s) in m && m[KeyOf(s)] == ValueOf(s) && s == KeyOf(s) + "=" + m[KeyOf(s)]
      ensures Matches(KEY_PART, KeyOf(s)) && Matches(NAME_PART, ValueOf(s))
    {
      var i :| 0 <= i < |list| && list[i] == s;
      assert Pairs(list)[i] in Pairs(list);
      EntrySplits(s);
    }
    forall k | k in m ensures k + "=" + m[k] in list && Matches(KEY_PART, k) && Matches(NAME_PART, m[k]) {
      var i := KeyTaken(list, m, k);
      assert list[i] in list;
    }
  }

  /** Parsing an admitted list succeeds with exactly its entries. */
  lemma AdmittedParses(list: seq<string>)
    requires AdmittedList(list)
    ensures Parse(list).Ok? && |Parse(list).value| == |list|
    ensures var m := Parse(list).value;
            forall s :: s in list <==> exists k :: k in m && s == k + "=" + m[k]
  {
    ParseExact(list);
    var r := Parse(list);
    if r.Err? {
      var k: nat :| RefusedAt(list, r.error, k);
      AdmittedNotRefused(list, k, r.error);
    } else {
      AdmittedJoins(list, r.value);
    }
  }

  // ---------- label values ----------

  predicate AlnumByte(b: Bytes.Byte) {
    0x41 <= b <= 0x5A || 0x61 <= b <= 0x7A || 0x30 <= b <= 0x39
  }

  predicate LabelByte(b: Bytes.Byte) {
    AlnumByte(b) || b == 0x2D || b == 0x5F || b == 0x2E
  }

  /** The check on the bytes of the value. */
  predicate ValidLabelValue(v: seq<Bytes.Byte>) {
    && |v| <= 63
    && (forall b :: b in v ==> LabelByte(b))
    && v != [] && AlnumByte(v[0]) && AlnumByte(v[|v| - 1])
  }

  function Utf8(s: string): seq<Bytes.Byte> {
    if s == "" then [] else Bytes.EncodeScalar(s[0] as int) + Utf8(s[1..])
  }

  lemma CharByte(c: char)
    ensures LabelByte(Bytes.EncodeScalar(c as int)[0]) <==> In(LabelChar, c)
    ensures In(LabelChar, c) ==> Bytes.EncodeScalar(c as int) == [c as int]
  {
  }

  /** The bytes of a string are label bytes exactly when its characters are label characters; they
      then correspond one to one. */
  lemma {:induction false} LabelBytesAreChars(s: string)
    ensures (forall b :: b in Utf8(s) ==> LabelByte(b)) <==> (forall c :: c in s ==> In(LabelChar, c))
    ensures (forall c :: c in s ==> In(LabelChar, c)) ==>
              |Utf8(s)| == |s| && forall i :: 0 <= i < |s| ==> Utf8(s)[i] == s[i] as int
  {
    if s == "" {
    } else {
      var head, rest := Bytes.EncodeScalar(s[0] as int), Utf8(s[1..]);
      LabelBytesAreChars(s[1..]);
      assert s == [s[0]] + s[1..];
      assert head[0] in Utf8(s) && s[0] in s;
      CharByte(s[0]);
      assert forall b :: b in Utf8(s) <==> b in head || b in rest;
      if In(LabelChar, s[0]) {
        assert head == [s[0] as int];
      }
    }
  }

  predicate NameText(ends: Class, middle: Class, s: string) {
    1 <= |s| <= 63 && In(ends, s[0]) && In(ends, s[|s| - 1]) && forall c :: c in s ==> In(middle, c)
  }

  predicate TailText(ends: Class, middle: Class, t: string) {
    1 <= |t| <= 62 && In(ends, t[|t| - 1]) && forall c :: c in t ==> In(middle, c)
  }

  lemma TailShape(ends: Class, middle: Class, t: string)
    requires Matches(Tail(ends, middle), t) && forall c :: In(ends, c) ==> In(middle, c)
    ensures TailText(ends, middle, t)
  {
    var i := CatSplits(Between(Chars(middle), 0, 61), Chars(ends), t);
    UpToChars(middle, 61, t[..i]);
    CharsOfSplit(t, i);
    assert |t[i..]| == 1 && t[i..][0] == t[|t| - 1];
  }

  lemma TailMatches(ends: Class, middle: Class, t: string)
    requires TailText(ends, middle, t)
    ensures Matches(Tail(ends, middle), t)
  {
    var n := |t| - 1;
    UpToChars(middle, 61, t[..n]);
    assert t[n..] == [t[n]] && Matches(Chars(ends), t[n..]);
    assert Matches(Between(Chars(middle), 0, 61), t[..n]);
  }

  lemma NameIsText(ends: Class, middle: Class, s: string)
    requires Matches(Name(ends, middle), s) && forall c :: In(ends, c) ==> In(middle, c)
    ensures NameText(ends, middle, s)
  {
    NameShape(ends, middle, s);
    var i := CatSplits(Chars(ends), Opt(Tail(ends, middle)), s);
    assert i == 1 && s[..1][0] == s[0];
    if s[1..] != "" {
      TailShape(ends, middle, s[1..]);
    }
  }

  lemma NameMatches(ends: Class, middle: Class, s: string)
    requires NameText(ends, middle, s)
    ensures Matches(Name(ends, middle), s)
  {
    assert Matches(Chars(ends), s[..1]);
    if s[1..] != "" {
      assert s == [s[0]] + s[1..];
      TailMatches(ends, middle, s[1..]);
    }
    assert Matches(Opt(Tail(ends, middle)), s[1..]);
  }

  /** The language of a name part: 1 to 63 characters with proper ends. */
  lemma NameLanguage(ends: Class, middle: Class, s: string)
    requires forall c :: In(ends, c) ==> In(middle, c)
    ensures Matches(Name(ends, middle), s) <==> NameText(ends, middle, s)
  {
    if Matches(Name(ends, middle), s) {
      NameIsText(ends, middle, s);
    }
    if NameText(ends, middle, s) {
      NameMatches(ends, middle, s);
    }
  }

  // ---------- the admission rule, in words ----------

  /** The labels, each after a dot. */
  function Dotted(labels: seq<string>): string {
    if labels == [] then "" else "." + labels[0] + Dotted(labels[1..])
  }

  predicate DnsLabels(labels: seq<string>) {
    forall l :: l in labels ==> NameText(Lower, LowerDash, l)
  }

  /** One or more lower-case labels of 1 to 63 characters, separated by dots. */
  ghost predicate DnsName(s: string) {
    exists labels: seq<string> :: labels != [] && DnsLabels(labels) && "." + s == Dotted(labels)
  }

  lemma DotLabelLanguage(s: string)
    ensures Matches(DOT_LABEL, s) <==> s != "" && s[0] == '.' && NameText(Lower, LowerDash, s[1..])
  {
    if s != "" {
      NameLanguage(Lower, LowerDash, s[1..]);
    }
    if Matches(DOT_LABEL, s) {
      var i := CatSplits(Chars(Only('.')), DNS_LABEL, s);
      assert i == 1 && s[..1][0] == s[0];
    }
    if s != "" && s[0] == '.' && NameText(Lower, LowerDash, s[1..]) {
      assert Matches(Chars(Only('.')), s[..1]) && Matches(DNS_LABEL, s[1..]);
    }
  }

  lemma {:induction false} StarIsDotted(s: string) returns (labels: seq<string>)
    requires Matches(Star(DOT_LABEL), s)
    ensures DnsLabels(labels) && s == Dotted(labels)
    decreases |s|
  {
    labels := [];
    if s != "" {
      var i :| 0 < i <= |s| && Matches(DOT_LABEL, s[..i]) && Matches(Star(DOT_LABEL), s[i..]);
      DotLabelLanguage(s[..i]);
      var rest := StarIsDotted(s[i..]);
      labels := [s[..i][1..]] + rest;
      assert labels[1..] == rest && s[..i] == "." + labels[0] && s == s[..i] + s[i..];
    }
  }

  lemma {:induction false} DottedIsStar(labels: seq<string>)
    requires DnsLabels(labels)
    ensures Matches(Star(DOT_LABEL), Dotted(labels))
  {
    if labels == [] {
    } else {
      var head, rest := "." + labels[0], Dotted(labels[1..]);
      assert labels[0] in labels && head[1..] == labels[0];
      DotLabelLanguage(head);
      DottedIsStar(labels[1..]);
      StarCons(DOT_LABEL, head, rest);
    }
  }

  lemma StarCons(r: Regex, head: string, rest: string)
    requires head != "" && Matches(r, head) && Matches(Star(r), rest)
    ensures Matches(Star(r), head + rest)
  {
    var s, i := head + rest, |head|;
    assert s[..i] == head && s[i..] == rest;
  }

  lemma CatJoins(a: Regex, b: Regex, s: string, t: string)
    requires Matches(a, s) && Matches(b, t)
    ensures Matches(Cat(a, b), s + t)
  {
    var i := |s|;
    assert (s + t)[..i] == s && (s + t)[i..] == t;
  }

  lemma LabelsAreDns(s: string)
    requires Matches(LABELS, s)
    ensures DnsName(s)
  {
    var i := CatSplits(DNS_LABEL, Star(DOT_LABEL), s);
    NameLanguage(Lower, LowerDash, s[..i]);
    var rest := StarIsDotted(s[i..]);
    DottedCons(s[..i], rest);
    assert s == s[..i] + s[i..];
    assert DnsLabels([s[..i]] + rest);
  }

  lemma DottedCons(first: string, rest: seq<string>)
    ensures Dotted([first] + rest) == "." + (first + Dotted(rest))
  {
    assert ([first] + rest)[1..] == rest;
    assert "." + first + Dotted(rest) == "." + (first + Dotted(rest));
  }

  lemma DnsAreLabels(s: string, labels: seq<string>)
    requires labels != [] && DnsLabels(labels) && "." + s == Dotted(labels)
    ensures Matches(LABELS, s)
  {
    var rest := Dotted(labels[1..]);
    assert labels[0] in labels;
    NameLanguage(Lower, LowerDash, labels[0]);
    DottedIsStar(labels[1..]);
    CatJoins(DNS_LABEL, Star(DOT_LABEL), labels[0], rest);
    assert ("." + s)[1..] == s && ("." + (labels[0] + rest))[1..] == labels[0] + rest;
    assert "." + labels[0] + rest == "." + (labels[0] + rest);
  }

  lemma LabelsLanguage(s: string)
    ensures Matches(LABELS, s) <==> DnsName(s)
  {
    if Matches(LABELS, s) {
      LabelsAreDns(s);
    }
    if DnsName(s) {
      var labels: seq<string> :| labels != [] && DnsLabels(labels) && "." + s == Dotted(labels);
      DnsAreLabels(s, labels);
    }
  }

  /** A label key: a name, possibly after a DNS name and a slash. */
  ghost predicate LabelKey(key: string, prefix: Option<string>, name: string) {
    && NameText(Alnum, LabelChar, name)
    && if prefix.None? then key == name else DnsName(prefix.value) && key == prefix.value + "/" + name
  }

  lemma PrefixLanguage(s: string)
    ensures Matches(DNS_PREFIX, s) <==> s != "" && s[|s| - 1] == '/' && DnsName(s[..|s| - 1])
  {
    if Matches(DNS_PREFIX, s) {
      var i := CatSplits(LABELS, Chars(Only('/')), s);
      assert i == |s| - 1 && s[i..][0] == s[i];
      LabelsLanguage(s[..i]);
    }
    if s != "" && s[|s| - 1] == '/' && DnsName(s[..|s| - 1]) {
      LabelsLanguage(s[..|s| - 1]);
      assert Matches(Chars(Only('/')), "/");
      CatJoins(LABELS, Chars(Only('/')), s[..|s| - 1], "/");
      assert s == s[..|s| - 1] + "/";
    }
  }

  lemma KeyIsLabelKey(key: string) returns (prefix: Option<string>, name: string)
    requires Matches(KEY_PART, key)
    ensures LabelKey(key, prefix, name)
  {
    var i := CatSplits(Opt(DNS_PREFIX), NAME_PART, key);
    name := key[i..];
    NameLanguage(Alnum, LabelChar, name);
    prefix := None;
    if i == 0 {
      assert key[0..] == key;
    } else {
      PrefixLanguage(key[..i]);
      prefix := Some(key[..i - 1]);
      assert key[..i][..i - 1] == key[..i - 1] && key[..i] == key[..i - 1] + "/";
      assert key == key[..i] + key[i..];
    }
  }

  lemma LabelKeyMatches(key: string, prefix: Option<string>, name: string)
    requires LabelKey(key, prefix, name)
    ensures Matches(KEY_PART, key)
  {
    NameLanguage(Alnum, LabelChar, name);
    if prefix.None? {
      CatJoins(Opt(DNS_PREFIX), NAME_PART, "", name);
      assert "" + name == name;
    } else {
      var p := prefix.value + "/";
      assert p[..|p| - 1] == prefix.value;
      PrefixLanguage(p);
      CatJoins(Opt(DNS_PREFIX), NAME_PART, p, name);
    }
  }

  /** What the rule admits, in words: a name, possibly after a DNS name of at most 253 characters and
      a slash; then `=` and a value. */
  ghost predicate Label(s: string, prefix: Option<string>, name: string, value: string) {
    && NameText(Alnum, LabelChar, name) && NameText(Alnum, LabelChar, value)
    && if prefix.None? then s == name + "=" + value
       else DnsName(prefix.value) && |prefix.value| <= 253 && s == prefix.value + "/" + name + "=" + value
  }

  lemma {:induction false} DottedChars(labels: seq<string>)
    requires DnsLabels(labels)
    ensures forall c :: c in Dotted(labels) ==> c == '.' || In(LowerDash, c)
  {
    if labels == [] {
    } else {
      DottedChars(labels[1..]);
      assert labels[0] in labels;
      assert Dotted(labels) == "." + labels[0] + Dotted(labels[1..]);
    }
  }

  lemma DnsNameHasNoSlash(s: string)
    requires DnsName(s)
    ensures '/' !in s
  {
    var labels: seq<string> :| labels != [] && DnsLabels(labels) && "." + s == Dotted(labels);
    DottedChars(labels);
    assert forall c :: c in s ==> c in "." + s;
  }

  lemma DnsNameNotEmpty(s: string)
    requires DnsName(s)
    ensures s != ""
  {
    var labels: seq<string> :| labels != [] && DnsLabels(labels) && "." + s == Dotted(labels);
    assert labels[0] in labels;
    assert |Dotted(labels)| >= 1 + |labels[0]|;
  }

  lemma NoSlash(s: string)
    requires NameText(Alnum, LabelChar, s)
    ensures '/' !in s
  {
  }

  /** Of a string with a slash after `before`, the short-prefix rule bounds what is before it. */
  lemma ShortPrefixLanguage(before: string, rest: string)
    requires '/' !in before
    ensures (exists i :: 0 <= i <= |before + "/" + rest| && Matches(SHORT_PREFIX, (before + "/" + rest)[..i])) <==>
            1 <= |before| <= 253
  {
    var s, n := before + "/" + rest, |before|;
    assert s[..n] == before && s[n] == '/' && s[..n + 1] == before + "/";
    AtLeastOneLanguage(before);
    if i :| 0 <= i <= |s| && Matches(SHORT_PREFIX, s[..i]) {
      var j := CatSplits(Between(Chars(AllBut('/')), 1, 253), Chars(Only('/')), s[..i]);
      assert j == i - 1 && s[..i][j..][0] == s[j] && s[..i][..j] == s[..j];
      AtLeastOneLanguage(s[..j]);
      assert forall k :: 0 <= k < j ==> s[k] in s[..j];
      assert forall k :: 0 <= k < n ==> s[k] in s[..n];
      assert j == n;
    }
    if 1 <= n <= 253 {
      assert Matches(Chars(Only('/')), "/");
      CatJoins(Between(Chars(AllBut('/')), 1, 253), Chars(Only('/')), before, "/");
    }
  }

  lemma AtLeastOneLanguage(s: string)
    ensures Matches(Between(Chars(AllBut('/')), 1, 253), s) <==> 1 <= |s| <= 253 && '/' !in s
  {
    var r := Chars(AllBut('/'));
    if s != "" {
      UpToChars(AllBut('/'), 252, s[1..]);
      assert s == [s[0]] + s[1..];
    }
    if MatchesTimes(r, 1, 253, s) {
      var i :| 0 <= i <= |s| && Matches(r, s[..i]) && MatchesTimes(r, 0, 252, s[i..]);
      assert i == 1 && s[..1][0] == s[0];
    }
    if 1 <= |s| <= 253 && '/' !in s {
      assert Matches(r, s[..1]) && MatchesTimes(r, 0, 252, s[1..]);
    }
  }

  lemma PrefixRule(s: string, prefix: Option<string>, name: string, value: string)
    requires NameText(Alnum, LabelChar, name) && NameText(Alnum, LabelChar, value)
    requires if prefix.None? then s == name + "=" + value
             else DnsName(prefix.value) && s == prefix.value + "/" + name + "=" + value
    ensures ('/' in s ==> exists i :: 0 <= i <= |s| && Matches(SHORT_PREFIX, s[..i])) <==>
            prefix.None? || |prefix.value| <= 253
  {
    NoSlash(name);
    NoSlash(value);
    if prefix.Some? {
      var p, rest := prefix.value, name + "=" + value;
      assert s == p + "/" + rest;
      assert s[|p|] == '/';
      DnsNameHasNoSlash(p);
      DnsNameNotEmpty(p);
      ShortPrefixLanguage(p, rest);
    }
  }

  /** The admission rule admits exactly those, the length limit of 381 characters following from it. */
  lemma AdmittedIffLabel(s: string)
    ensures AdmittedEntry(s) <==> exists prefix, name, value :: Label(s, prefix, name, value)
  {
    if AdmittedEntry(s) {
      var key, value := EntryParts(s);
      var prefix, name := KeyIsLabelKey(key);
      NameLanguage(Alnum, LabelChar, value);
      PrefixRule(s, prefix, name, value);
      assert Label(s, prefix, name, value);
    }
    if prefix, name, value :| Label(s, prefix, name, value) {
      var key := if prefix.None? then name else prefix.value + "/" + name;
      LabelKeyMatches(key, prefix, name);
      NameLanguage(Alnum, LabelChar, value);
      PrefixRule(s, prefix, name, value);
      EntryMatches(key, value);
      assert s == key + "=" + value;
    }
  }

  lemma EntryMatches(key: string, value: string)
    requires Matches(KEY_PART, key) && Matches(NAME_PART, value)
    ensures Matches(ENTRY, key + "=" + value)
  {
    assert Matches(Chars(Only('=')), "=");
    CatJoins(Chars(Only('=')), NAME_PART, "=", value);
    CatJoins(KEY_PART, Cat(Chars(Only('=')), NAME_PART), key, "=" + value);
    assert key + "=" + value == key + ("=" + value);
  }

  /** The label-value check accepts exactly the language of the value part of the admission rule. */
  lemma LabelValueLanguage(s: string)
    ensures ValidLabelValue(Utf8(s)) <==> Matches(NAME_PART, s)
  {
    NameLanguage(Alnum, LabelChar, s);
    LabelBytesAreChars(s);
    if forall c :: c in s ==> In(LabelChar, c) {
      if s != "" {
        assert s[0] in s && s[|s| - 1] in s;
      }
    }
  }
}
