/** The text forms used by pck-cert-tool: hex strings and decimal integers, on bytes. */
module Text {
  import opened Bytes
  import opened Results

  // ---------- ASCII ----------

  /** The bytes of an ASCII text. */
  function Ascii(s: string): (b: seq<Byte>)
    ensures |b| == |s|
  {
    seq(|s|, i requires 0 <= i < |s| => if s[i] < 128 as char then s[i] as int else 63)
  }

  // ---------- hex ----------

  /** `{:x}` of a nibble: lower case. */
  function HexDigit(n: int): Byte
    requires 0 <= n < 16
  {
    if n < 10 then 48 + n else 87 + n
  }

  /** `is_ascii_hexdigit` */
  predicate IsHexDigit(b: Byte) {
    48 <= b <= 57 || 65 <= b <= 70 || 97 <= b <= 102
  }

  predicate AllHex(s: seq<Byte>) {
    forall i :: 0 <= i < |s| ==> IsHexDigit(s[i])
  }

  predicate IsFixedLenHex(s: seq<Byte>, n: nat) {
    |s| == n && AllHex(s)
  }

  function NibbleValue(b: Byte): (n: int)
    requires IsHexDigit(b)
    ensures 0 <= n < 16
  {
    if b <= 57 then b - 48 else if b <= 70 then b - 55 else b - 87
  }

  function LowerHex(b: Byte): Byte {
    if 65 <= b <= 70 then b + 32 else b
  }

  /** The characters taken for hex digits, and what they count. */
  lemma HexDigitsAre(b: Byte)
    ensures var lower, upper := "0123456789abcdef", "0123456789ABCDEF";
            && (IsHexDigit(b) <==> exists i :: 0 <= i < 16 && (b == lower[i] as int || b == upper[i] as int))
            && (IsHexDigit(b) ==> b == lower[NibbleValue(b)] as int || b == upper[NibbleValue(b)] as int)
  {
    if IsHexDigit(b) {
      var lower, upper, i := "0123456789abcdef", "0123456789ABCDEF", NibbleValue(b);
      assert 0 <= i < 16 && (b == lower[i] as int || b == upper[i] as int);
    }
  }

  /** Two lower-case digits for each byte, most significant nibble first. */
  function HexEncode(bytes: seq<Byte>): seq<Byte> {
    seq(2 * |bytes|, i requires 0 <= i < 2 * |bytes| =>
      if i % 2 == 0 then HexDigit(bytes[i / 2] / 16) else HexDigit(bytes[i / 2] % 16))
  }

  function HexDecode(s: seq<Byte>): seq<Byte>
    requires |s| % 2 == 0 && AllHex(s)
  {
    seq(|s| / 2, i requires 0 <= i < |s| / 2 => 16 * NibbleValue(s[2 * i]) + NibbleValue(s[2 * i + 1]))
  }

  lemma DigitRoundTrip(n: int)
    requires 0 <= n < 16
    ensures IsHexDigit(HexDigit(n)) && HexDigit(n) < 128 && NibbleValue(HexDigit(n)) == n
  {
  }

  lemma EncodedIsHex(bytes: seq<Byte>)
    ensures AllHex(HexEncode(bytes)) && ValidUtf8(HexEncode(bytes))
  {
    var s := HexEncode(bytes);
    forall i | 0 <= i < |s| ensures IsHexDigit(s[i]) {
      DigitRoundTrip(if i % 2 == 0 then bytes[i / 2] / 16 else bytes[i / 2] % 16);
    }
    AsciiIsUtf8(s);
  }

  lemma HexRoundTrip(bytes: seq<Byte>)
    ensures AllHex(HexEncode(bytes)) && ValidUtf8(HexEncode(bytes))
    ensures HexDecode(HexEncode(bytes)) == bytes
  {
    EncodedIsHex(bytes);
    var s := HexEncode(bytes);
    forall i | 0 <= i < |bytes| ensures HexDecode(s)[i] == bytes[i] {
      DigitRoundTrip(bytes[i] / 16);
      DigitRoundTrip(bytes[i] % 16);
      assert s[2 * i] == HexDigit(bytes[i] / 16) && s[2 * i + 1] == HexDigit(bytes[i] % 16);
    }
  }

  /** The digits are those of the text "0123456789abcdef". */
  lemma EncodedDigits(bytes: seq<Byte>, i: nat)
    requires i < |bytes|
    ensures var digits := "0123456789abcdef";
            && HexEncode(bytes)[2 * i] == digits[bytes[i] / 16] as int
            && HexEncode(bytes)[2 * i + 1] == digits[bytes[i] % 16] as int
  {
    DigitText(bytes[i] / 16);
    DigitText(bytes[i] % 16);
  }

  lemma DigitText(n: int)
    requires 0 <= n < 16
    ensures HexDigit(n) == "0123456789abcdef"[n] as int
  {
  }

  /** Re-encoding a decoded hex string gives it back in lower case. */
  lemma HexCanonical(s: seq<Byte>)
    requires |s| % 2 == 0 && AllHex(s)
    ensures HexEncode(HexDecode(s)) == seq(|s|, i requires 0 <= i < |s| => LowerHex(s[i]))
  {
  }

  lemma HexEncodeInjective(a: seq<Byte>, b: seq<Byte>)
    requires HexEncode(a) == HexEncode(b)
    ensures a == b
  {
    HexRoundTrip(a);
    HexRoundTrip(b);
  }

  /** `decode_hex::<N>`: fills a fixed-size buffer from exactly 2N hex characters. */
  method DecodeHex(s: seq<Byte>, n: nat) returns (ok: bool, bytes: array<Byte>)
    ensures ok <==> IsFixedLenHex(s, 2 * n)
    ensures ok ==> bytes[..] == HexDecode(s)
  {
    ok := |s| == 2 * n && AllHex(s);
    bytes := new Byte[n](_ => 0);
    if !ok {
      return;
    }
    for i := 0 to n
      invariant forall j :: 0 <= j < i ==> bytes[j] == HexDecode(s)[j]
    {
      bytes[i] := 16 * NibbleValue(s[2 * i]) + NibbleValue(s[2 * i + 1]);
    }
  }

  // ---------- decimal ----------

  predicate IsDigit(b: Byte) { 48 <= b <= 57 }

  predicate AllDigits(s: seq<Byte>) {
    forall i :: 0 <= i < |s| ==> IsDigit(s[i])
  }

  /** `u64::to_string` */
  function Decimal(n: nat): (s: seq<Byte>)
    ensures |s| > 0 && AllDigits(s)
  {
    if n < 10 then [48 + n] else Decimal(n / 10) + [48 + n % 10]
  }

  function DecimalValue(s: seq<Byte>): nat
    requires AllDigits(s)
  {
    if s == [] then 0 else 10 * DecimalValue(s[..|s| - 1]) + (s[|s| - 1] - 48)
  }

  const PLUS: Byte := 43

  /** `str::parse::<u64>`: an optional `+`, then at least one digit, with a value below 2^64. */
  function ParseU64(s: seq<Byte>): Option<U64> {
    var digits := if s != [] && s[0] == PLUS then s[1..] else s;
    if digits != [] && AllDigits(digits) && DecimalValue(digits) < U64_LIMIT
    then Some(DecimalValue(digits)) else None
  }

  function Zeros(k: nat): seq<Byte> {
    seq(k, _ => 48)
  }

  lemma {:induction false} DecimalValueOfZeros(k: nat, s: seq<Byte>)
    requires AllDigits(s)
    ensures DecimalValue(Zeros(k) + s) == DecimalValue(s)
    decreases k + |s|
  {
    var t := Zeros(k) + s;
    if s != [] {
      DecimalValueOfZeros(k, s[..|s| - 1]);
      assert t[..|t| - 1] == Zeros(k) + s[..|s| - 1];
    } else if k > 0 {
      DecimalValueOfZeros(k - 1, []);
      assert t[..k - 1] == Zeros(k - 1) + [];
    }
  }

  lemma {:induction false} DecimalRoundTrip(n: nat)
    ensures DecimalValue(Decimal(n)) == n
    ensures n > 0 ==> Decimal(n)[0] != 48
  {
    if n >= 10 {
      DecimalRoundTrip(n / 10);
      assert Decimal(n)[..|Decimal(n)| - 1] == Decimal(n / 10);
    }
  }

  /** Leading zeros apart, a digit string is the decimal form of its value. */
  lemma {:induction false} DecimalCanonical(s: seq<Byte>) returns (k: nat)
    requires s != [] && AllDigits(s)
    ensures s == Zeros(k) + Decimal(DecimalValue(s))
  {
    var init, last := s[..|s| - 1], s[|s| - 1];
    if init == [] {
      k := 0;
    } else {
      k := DecimalCanonical(init);
      var v := DecimalValue(init);
      if v == 0 {
        k := |init|;
        assert Decimal(0) == [48];
        assert forall i :: 0 <= i < |init| ==> init[i] == 48;
      } else {
        assert DecimalValue(s) / 10 == v;
        assert s == init + [last];
      }
    }
  }

  function Pow10(k: nat): (p: nat)
    ensures p > 0
  {
    if k == 0 then 1 else 10 * Pow10(k - 1)
  }

  /** Places to the left of the digits are zero. */
  lemma {:induction false} DecimalLength(n: nat)
    ensures n < Pow10(|Decimal(n)|)
  {
    if n < 10 {
      assert Pow10(1) == 10 * Pow10(0);
    } else {
      DecimalLength(n / 10);
      assert |Decimal(n)| == |Decimal(n / 10)| + 1;
    }
  }

  lemma DivideByTens(n: nat, p: nat)
    requires p > 0
    ensures n / 10 / p == n / (10 * p)
  {
    var a, b := n / 10 / p, n / 10 % p;
    assert n / 10 == p * a + b;
    assert n == 10 * (p * a + b) + n % 10;
    assert 10 * (p * a + b) == (10 * p) * a + 10 * b;
    QuotientIs(n, 10 * p, a, 10 * b + n % 10);
  }

  /** The digit at place `i` from the right counts the `i`-th power of ten. */
  lemma {:induction false} DecimalDigit(n: nat, i: nat)
    requires i < |Decimal(n)|
    ensures Decimal(n)[|Decimal(n)| - 1 - i] == '0' as int + n / Pow10(i) % 10
  {
    if i == 0 {
    } else {
      DecimalDigit(n / 10, i - 1);
      DivideByTens(n, Pow10(i - 1));
    }
  }

  ghost predicate WrittenU64(s: seq<Byte>, plus: bool, k: nat, n: nat) {
    s == (if plus then [PLUS] else []) + Zeros(k) + Decimal(n)
  }

  lemma WrittenParses(s: seq<Byte>, plus: bool, k: nat, n: nat)
    requires n < U64_LIMIT && WrittenU64(s, plus, k, n)
    ensures ParseU64(s) == Some(n)
  {
    var digits := Zeros(k) + Decimal(n);
    DecimalValueOfZeros(k, Decimal(n));
    DecimalRoundTrip(n);
    assert IsDigit(digits[0]);
    if plus {
      assert s[1..] == digits;
    } else {
      assert s == digits;
    }
  }

  lemma DigitsAreWritten(digits: seq<Byte>) returns (k: nat)
    requires digits != [] && AllDigits(digits)
    ensures WrittenU64(digits, false, k, DecimalValue(digits))
    ensures WrittenU64([PLUS] + digits, true, k, DecimalValue(digits))
  {
    k := DecimalCanonical(digits);
    var rest := Zeros(k) + Decimal(DecimalValue(digits));
    assert [] + Zeros(k) + Decimal(DecimalValue(digits)) == rest;
    assert [PLUS] + Zeros(k) + Decimal(DecimalValue(digits)) == [PLUS] + rest;
  }

  lemma ParsedWasWritten(s: seq<Byte>)
    requires ParseU64(s).Some?
    ensures exists plus: bool, k: nat :: WrittenU64(s, plus, k, ParseU64(s).value)
  {
    if s[0] == PLUS {
      var k := DigitsAreWritten(s[1..]);
      assert s == [PLUS] + s[1..];
    } else {
      var k := DigitsAreWritten(s);
    }
  }

  /** What `parse::<u64>` accepts, said without it: decimal text of a number below 2^64, with
      leading zeros and one plus sign allowed. */
  lemma ParseU64Exact(s: seq<Byte>, n: U64)
    ensures ParseU64(s) == Some(n) <==> exists plus: bool, k: nat :: WrittenU64(s, plus, k, n)
  {
    if ParseU64(s) == Some(n) {
      ParsedWasWritten(s);
    }
    if plus: bool, k: nat :| WrittenU64(s, plus, k, n) {
      WrittenParses(s, plus, k, n);
    }
  }

  lemma ParseU64OfDecimal(n: U64)
    ensures ParseU64(Decimal(n)) == Some(n)
  {
    assert Decimal(n) == [] + Zeros(0) + Decimal(n);
    WrittenParses(Decimal(n), false, 0, n);
  }
}
