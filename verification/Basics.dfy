/** Bytes, optional values, little-endian words and hexadecimal text. */
module Basics {

  datatype Option<+T> = None | Some(value: T) {
    function GetOr(default_: T): T {
      match this
      case Some(v) => v
      case None => default_
    }
  }

  newtype byte = x: int | 0 <= x < 0x100

  type Bytes = seq<byte>

  const U32 := 0x1_0000_0000
  const U64 := 0x1_0000_0000_0000_0000

  type uint32 = x: int | 0 <= x < U32

  /** The parts one after another. */
  function Concat(parts: seq<Bytes>): (r: Bytes) {
    if parts == [] then [] else parts[0] + Concat(parts[1..])
  }

  lemma {:induction false} ConcatAppend(a: seq<Bytes>, b: seq<Bytes>)
    ensures Concat(a + b) == Concat(a) + Concat(b)
  {
    if a == [] {
      assert a + b == b;
    } else {
      assert (a + b)[1..] == a[1..] + b;
      ConcatAppend(a[1..], b);
    }
  }

  /** A list's front concatenates to a prefix of the whole. */
  lemma ConcatPrefix(a: seq<Bytes>, k: nat)
    requires k <= |a|
    ensures Concat(a[..k]) <= Concat(a)
  {
    hide Concat;
    assert a[..k] + a[k..] == a;
    ConcatAppend(a[..k], a[k..]);
  }

  /** The n low bytes of a number, least significant first. */
  function LeBytes(x: nat, n: nat): (b: Bytes)
    ensures |b| == n
  {
    if n == 0 then [] else [(x % 0x100) as byte] + LeBytes(x / 0x100, n - 1)
  }

  function LeValue(b: Bytes): (x: nat) {
    if b == [] then 0 else b[0] as nat + 0x100 * LeValue(b[1..])
  }

  /** The wire form of a uint32. */
  function Le32(x: uint32): (b: Bytes)
    ensures |b| == 4
  {
    LeBytes(x, 4)
  }

  function UnLe32(b: Bytes): (x: uint32)
    requires |b| == 4
  {
    LeValueBounded(b);
    LeValue(b)
  }

  lemma {:induction false} LeValueBounded(b: Bytes)
    requires |b| <= 4
    ensures LeValue(b) < Power256(|b|)
  {
    if b != [] {
      LeValueBounded(b[1..]);
    }
  }

  function Power256(n: nat): (p: nat)
    requires n <= 4
  {
    if n == 0 then 1 else if n == 1 then 0x100 else if n == 2 then 0x1_0000 else if n == 3 then 0x100_0000 else U32
  }

  lemma {:induction false} LeRoundTrip(x: nat, n: nat)
    requires n <= 4 && x < Power256(n)
    ensures LeValue(LeBytes(x, n)) == x
  {
    if n > 0 {
      LeRoundTrip(x / 0x100, n - 1);
      assert LeBytes(x, n)[1..] == LeBytes(x / 0x100, n - 1);
    }
  }

  /** Reading and writing a word undo each other. */
  lemma Le32RoundTrip(x: uint32)
    ensures UnLe32(Le32(x)) == x
  {
    LeRoundTrip(x, 4);
  }

  lemma {:induction false} LeUnRoundTrip(b: Bytes)
    ensures LeBytes(LeValue(b), |b|) == b
  {
    if b != [] {
      LeUnRoundTrip(b[1..]);
      assert LeValue(b) / 0x100 == LeValue(b[1..]) && LeValue(b) % 0x100 == b[0] as nat;
      assert b == [b[0]] + b[1..];
    }
  }

  lemma UnLe32RoundTrip(b: Bytes)
    requires |b| == 4
    ensures Le32(UnLe32(b)) == b
  {
    LeUnRoundTrip(b);
  }

  /** The value of one hexadecimal digit, either case. */
  function HexDigit(c: char): (r: Option<nat>)
    ensures r.Some? ==> r.value < 16
  {
    if '0' <= c <= '9' then Some((c - '0') as nat)
    else if 'a' <= c <= 'f' then Some((c - 'a') as nat + 10)
    else if 'A' <= c <= 'F' then Some((c - 'A') as nat + 10)
    else None
  }

  /** Strict decoding: an odd length or a foreign character is an error. */
  function HexDecode(s: string): (r: Option<Bytes>)
    ensures r.Some? ==> |s| == 2 * |r.value|
  {
    if |s| == 0 then Some([])
    else if |s| == 1 then None
    else match (HexDigit(s[0]), HexDigit(s[1]), HexDecode(s[2..]))
      case (Some(hi), Some(lo), Some(rest)) => Some([(16 * hi + lo) as byte] + rest)
      case _ => None
  }

  function HexChar(d: nat): (c: char)
    requires d < 16
    ensures HexDigit(c) == Some(d)
  {
    if d < 10 then '0' + d as char else 'a' + (d - 10) as char
  }

  function HexEncode(b: Bytes): (s: string)
    ensures |s| == 2 * |b|
  {
    if b == [] then "" else [HexChar(b[0] as nat / 16), HexChar(b[0] as nat % 16)] + HexEncode(b[1..])
  }

  lemma {:induction false} HexRoundTrip(b: Bytes)
    ensures HexDecode(HexEncode(b)) == Some(b)
  {
    hide HexChar, HexDigit;
    if b != [] {
      HexRoundTrip(b[1..]);
      assert HexEncode(b)[2..] == HexEncode(b[1..]);
      assert [b[0]] + b[1..] == b;
    }
  }

  /** Every byte is two lower-case digits, the high one first. */
  lemma {:induction false} HexEncodeExactly(b: Bytes, k: nat)
    requires k < |b|
    ensures HexEncode(b)[2 * k] == "0123456789abcdef"[b[k] as nat / 16]
    ensures HexEncode(b)[2 * k + 1] == "0123456789abcdef"[b[k] as nat % 16]
    decreases k
  {
    if k == 0 {
      HexCharExactly(b[0] as nat / 16);
      HexCharExactly(b[0] as nat % 16);
    } else {
      HexEncodeExactly(b[1..], k - 1);
      hide HexChar;
      assert HexEncode(b)[2 * k] == HexEncode(b[1..])[2 * (k - 1)];
      assert HexEncode(b)[2 * k + 1] == HexEncode(b[1..])[2 * (k - 1) + 1];
    }
  }

  lemma HexCharExactly(d: nat)
    requires d < 16
    ensures HexChar(d) == "0123456789abcdef"[d]
  {
    assert "0123456789abcdef"[..10] == "0123456789" && "0123456789abcdef"[10..] == "abcdef";
  }

  /** Names of the calls and requests that are under way at a node. */
  type Tid = nat

  /** The first of the four bytes is the least significant one. */
  lemma Le32Bytes(x: uint32)
    ensures Le32(x) == [(x % 0x100) as byte, (x / 0x100 % 0x100) as byte, (x / 0x1_0000 % 0x100) as byte,
      (x / 0x100_0000) as byte]
  {
    var y, z := x / 0x100, x / 0x1_0000;
    assert y / 0x100 == z && z / 0x100 == x / 0x100_0000 < 0x100;
    assert LeBytes(x / 0x100_0000, 1) == [(x / 0x100_0000) as byte];
    assert LeBytes(z, 2) == [(z % 0x100) as byte] + LeBytes(x / 0x100_0000, 1);
    assert LeBytes(y, 3) == [(y % 0x100) as byte] + LeBytes(z, 2);
  }

  predicate IsHexDigit(c: char) {
    '0' <= c <= '9' || 'a' <= c <= 'f' || 'A' <= c <= 'F'
  }

  lemma HexDigitExactly(c: char)
    ensures HexDigit(c).Some? <==> IsHexDigit(c)
    ensures HexDigit('A') == HexDigit('a') && HexDigit('B') == HexDigit('b') && HexDigit('C') == HexDigit('c')
    ensures HexDigit('D') == HexDigit('d') && HexDigit('E') == HexDigit('e') && HexDigit('F') == HexDigit('f')
  {}

  lemma HexDecodeTwo(s: string)
    requires |s| >= 2
    ensures HexDecode(s).Some? <==> IsHexDigit(s[0]) && IsHexDigit(s[1]) && HexDecode(s[2..]).Some?
    ensures HexDecode(s).Some? ==>
      && HexDigit(s[0]).Some? && HexDigit(s[1]).Some?
      && HexDecode(s).value == [(16 * HexDigit(s[0]).value + HexDigit(s[1]).value) as byte] + HexDecode(s[2..]).value
  {
    HexDigitExactly(s[0]);
    HexDigitExactly(s[1]);
  }

  /** What decodes is an even number of hexadecimal digits of either case. */
  lemma {:induction false} HexDecodeDomain(s: string)
    ensures HexDecode(s).Some? <==> |s| % 2 == 0 && forall i | 0 <= i < |s| :: IsHexDigit(s[i])
  {
    if |s| >= 2 {
      HexDecodeTwo(s);
      hide HexDecode, IsHexDigit;
      HexDecodeDomain(s[2..]);
      assert forall i | 2 <= i < |s| :: s[i] == s[2..][i - 2];
    }
  }

  /** And every two of them are a byte, the high digit first. */
  lemma {:induction false} HexDecodeExactly(s: string, k: nat)
    requires HexDecode(s).Some? && k < |s| / 2
    ensures HexDigit(s[2 * k]).Some? && HexDigit(s[2 * k + 1]).Some?
    ensures HexDecode(s).value[k] as nat == 16 * HexDigit(s[2 * k]).value + HexDigit(s[2 * k + 1]).value
    decreases k
  {
    HexDecodeTwo(s);
    hide HexDecode, HexDigit;
    if k > 0 {
      var rest := s[2..];
      HexDecodeExactly(rest, k - 1);
      assert rest[2 * (k - 1)] == s[2 * k] && rest[2 * (k - 1) + 1] == s[2 * k + 1];
    }
  }

  /** A list is distinct when no two of its positions agree. */
  ghost predicate Distinct<T>(s: seq<T>) {
    forall i, j | 0 <= i < j < |s| :: s[i] != s[j]
  }
}
