/** Bytes, little-endian integers and UTF-8. A Rust `String` or `&str` is modelled by its bytes. */
module Bytes {
  type Byte = b: int | 0 <= b < 256

  const U16_LIMIT: nat := 0x1_0000
  const U32_LIMIT: nat := 0x1_0000_0000
  const U64_LIMIT: nat := 0x1_0000_0000_0000_0000

  type U64 = n: int | 0 <= n < U64_LIMIT

  // ---------- little-endian integers ----------

  function Pow256(k: nat): (p: nat)
    ensures p > 0
  {
    if k == 0 then 1 else 256 * Pow256(k - 1)
  }

  lemma Limits()
    ensures Pow256(2) == U16_LIMIT && Pow256(4) == U32_LIMIT && Pow256(8) == U64_LIMIT
  {
  }

  /** The low `k` bytes of `n`, least significant first. */
  function LeBytes(n: nat, k: nat): (s: seq<Byte>)
    ensures |s| == k
  {
    if k == 0 then [] else [n % 256] + LeBytes(n / 256, k - 1)
  }

  function LeValue(s: seq<Byte>): nat {
    if s == [] then 0 else s[0] + 256 * LeValue(s[1..])
  }

  lemma {:induction false} LeValueOfBytes(n: nat, k: nat)
    requires n < Pow256(k)
    ensures LeValue(LeBytes(n, k)) == n
  {
    if k == 0 {
    } else {
      LeValueOfBytes(n / 256, k - 1);
      assert LeBytes(n, k)[1..] == LeBytes(n / 256, k - 1);
    }
  }

  lemma {:induction false} LeBytesOfValue(s: seq<Byte>)
    ensures LeValue(s) < Pow256(|s|) && LeBytes(LeValue(s), |s|) == s
  {
    if s == [] {
    } else {
      LeBytesOfValue(s[1..]);
      assert LeValue(s) / 256 == LeValue(s[1..]) && LeValue(s) % 256 == s[0];
      assert s == [s[0]] + s[1..];
    }
  }

  lemma AtLeastOnce(d: int, e: int)
    requires d > 0 && e >= 1
    ensures d * e >= d
  {
  }

  lemma QuotientIs(n: int, d: int, q: int, r: int)
    requires d > 0 && 0 <= r < d && n == d * q + r
    ensures n / d == q
  {
    var e := q - n / d;
    assert d * e == n % d - r;
    if e >= 1 {
      AtLeastOnce(d, e);
    } else if e <= -1 {
      AtLeastOnce(d, -e);
    }
  }

  lemma DivideTwice(n: nat, p: nat)
    requires p > 0
    ensures n / 256 / p == n / (256 * p)
  {
    var a, b := n / 256 / p, n / 256 % p;
    assert n / 256 == p * a + b;
    assert n == 256 * (p * a + b) + n % 256;
    assert 256 * (p * a + b) == (256 * p) * a + 256 * b;
    QuotientIs(n, 256 * p, a, 256 * b + n % 256);
  }

  /** Byte `i` is digit `i` of the number to base 256: the least significant comes first. */
  lemma {:induction false} LeByteAt(n: nat, k: nat, i: nat)
    requires i < k
    ensures LeBytes(n, k)[i] == n / Pow256(i) % 256
  {
    if i == 0 {
    } else {
      LeByteAt(n / 256, k - 1, i - 1);
      DivideTwice(n, Pow256(i - 1));
    }
  }

  // ---------- UTF-8 ----------

  predicate Tail(b: Byte) { 0x80 <= b <= 0xBF }

  /** Length of the well-formed character at the head of `s` by the grammar of section 4 of
      RFC 3629; 0 when there is none. */
  function CharLength(s: seq<Byte>): (n: nat)
    ensures n <= |s|
  {
    if |s| >= 1 && s[0] <= 0x7F then 1
    else if |s| >= 2 && 0xC2 <= s[0] <= 0xDF && Tail(s[1]) then 2
    else if |s| >= 3 && Tail(s[1]) && Tail(s[2]) &&
            ((s[0] == 0xE0 && 0xA0 <= s[1]) || 0xE1 <= s[0] <= 0xEC ||
             (s[0] == 0xED && s[1] <= 0x9F) || 0xEE <= s[0] <= 0xEF) then 3
    else if |s| >= 4 && Tail(s[1]) && Tail(s[2]) && Tail(s[3]) &&
            ((s[0] == 0xF0 && 0x90 <= s[1]) || 0xF1 <= s[0] <= 0xF3 ||
             (s[0] == 0xF4 && s[1] <= 0x8F)) then 4
    else 0
  }

  predicate ValidUtf8(s: seq<Byte>) {
    s == [] || (CharLength(s) > 0 && ValidUtf8(s[CharLength(s)..]))
  }

  type Str = s: seq<Byte> | ValidUtf8(s)

  /** A Unicode scalar value: a code point that is not a surrogate. */
  type Scalar = c: int | 0 <= c < 0xD800 || 0xE000 <= c < 0x11_0000

  /** The encoding of one scalar value, from section 3 of RFC 3629. */
  function EncodeScalar(c: Scalar): seq<Byte> {
    if c < 0x80 then [c]
    else if c < 0x800 then [0xC0 + c / 64, 0x80 + c % 64]
    else if c < 0x1_0000 then [0xE0 + c / 64 / 64, 0x80 + c / 64 % 64, 0x80 + c % 64]
    else [0xF0 + c / 64 / 64 / 64, 0x80 + c / 64 / 64 % 64, 0x80 + c / 64 % 64, 0x80 + c % 64]
  }

  function EncodeScalars(cs: seq<Scalar>): seq<Byte> {
    if cs == [] then [] else EncodeScalar(cs[0]) + EncodeScalars(cs[1..])
  }

  /** The code point at the head of `s`: the payload bits of its lead byte and its tail bytes. */
  function HeadCode(s: seq<Byte>): int
    requires CharLength(s) > 0
  {
    var n := CharLength(s);
    var lead: int := s[0];
    if n == 1 then lead
    else if n == 2 then Join(lead - 0xC0, s[1])
    else if n == 3 then Join(Join(lead - 0xE0, s[1]), s[2])
    else Join(Join(Join(lead - 0xF0, s[1]), s[2]), s[3])
  }

  function Join(high: int, tail: Byte): int {
    64 * high + (tail - 0x80) as int
  }

  lemma JoinSplit(high: int, tail: Byte)
    requires Tail(tail)
    ensures Join(high, tail) / 64 == high && 0x80 + Join(high, tail) % 64 == tail
  {
  }

  lemma HeadEncoded(c: Scalar, rest: seq<Byte>)
    ensures CharLength(EncodeScalar(c) + rest) == |EncodeScalar(c)|
  {
  }

  lemma HeadDecoded2(s: seq<Byte>)
    requires CharLength(s) == 2
    ensures 0x80 <= HeadCode(s) < 0x800 && EncodeScalar(HeadCode(s)) == s[..2]
  {
    var lead: int := s[0];
    JoinSplit(lead - 0xC0, s[1]);
  }

  lemma HeadDecoded3(s: seq<Byte>)
    requires CharLength(s) == 3
    ensures 0x800 <= HeadCode(s) < 0xD800 || 0xE000 <= HeadCode(s) < 0x1_0000
    ensures EncodeScalar(HeadCode(s)) == s[..3]
  {
    var lead: int := s[0];
    var high := Join(lead - 0xE0, s[1]);
    JoinSplit(lead - 0xE0, s[1]);
    JoinSplit(high, s[2]);
  }

  lemma HeadDecoded4(s: seq<Byte>)
    requires CharLength(s) == 4
    ensures 0x1_0000 <= HeadCode(s) < 0x11_0000 && EncodeScalar(HeadCode(s)) == s[..4]
  {
    var lead: int := s[0];
    var high := Join(lead - 0xF0, s[1]);
    JoinSplit(lead - 0xF0, s[1]);
    JoinSplit(high, s[2]);
    JoinSplit(Join(high, s[2]), s[3]);
  }

  lemma HeadDecoded(s: seq<Byte>)
    requires CharLength(s) > 0
    ensures 0 <= HeadCode(s) < 0xD800 || 0xE000 <= HeadCode(s) < 0x11_0000
    ensures EncodeScalar(HeadCode(s)) == s[..CharLength(s)]
  {
    match CharLength(s) {
      case 2 => HeadDecoded2(s);
      case 3 => HeadDecoded3(s);
      case 4 => HeadDecoded4(s);
      case _ => assert CharLength(s) == 1;
    }
  }

  /** The grammar of section 4 admits exactly the encodings of scalar sequences of section 3. */
  lemma {:induction false} ValidUtf8OfScalars(cs: seq<Scalar>)
    ensures ValidUtf8(EncodeScalars(cs))
  {
    if cs == [] {
    } else {
      ValidUtf8OfScalars(cs[1..]);
      HeadEncoded(cs[0], EncodeScalars(cs[1..]));
      assert EncodeScalars(cs)[|EncodeScalar(cs[0])|..] == EncodeScalars(cs[1..]);
    }
  }

  lemma {:induction false} ScalarsOfValidUtf8(s: seq<Byte>) returns (cs: seq<Scalar>)
    requires ValidUtf8(s)
    ensures EncodeScalars(cs) == s
  {
    if s == [] {
      cs := [];
    } else {
      HeadDecoded(s);
      var rest := ScalarsOfValidUtf8(s[CharLength(s)..]);
      cs := [HeadCode(s)] + rest;
      assert cs[1..] == rest;
      assert s == s[..CharLength(s)] + s[CharLength(s)..];
    }
  }

  lemma {:induction false} AsciiIsUtf8(s: seq<Byte>)
    requires forall i :: 0 <= i < |s| ==> s[i] < 128
    ensures ValidUtf8(s)
  {
    if s == [] {
    } else {
      AsciiIsUtf8(s[1..]);
    }
  }
}
