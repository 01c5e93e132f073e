// Bytes, fixed-width unsigned integers and the little-endian and big-endian
// encodings that the binary formats of this repository use.

module Wrappers {
  datatype Option<+T> = None | Some(value: T) {
    function GetOr(default: T): T {
      if Some? then value else default
    }
  }

  datatype Result<+T, +E> = Success(value: T) | Failure(error: E)
}

module Bytes {
  type byte = x: int | 0 <= x < 256

  const TWO_32: int := 0x1_0000_0000
  const TWO_64: int := 0x1_0000_0000_0000_0000

  type u32 = x: int | 0 <= x < TWO_32
  type u64 = x: int | 0 <= x < TWO_64

  function Pow256(n: nat): (p: nat)
    ensures p > 0
  {
    if n == 0 then 1 else 256 * Pow256(n - 1)
  }

  // The low `width` bytes of v, least significant first: a store through a
  // narrower unsigned type keeps v modulo 256^width.
  function PutLE(v: nat, width: nat): (s: seq<byte>)
    ensures |s| == width
  {
    if width == 0 then [] else [v % 256] + PutLE(v / 256, width - 1)
  }

  function GetLE(s: seq<byte>): (v: nat)
    ensures v < Pow256(|s|)
  {
    if s == [] then 0 else s[0] + 256 * GetLE(s[1..])
  }

  lemma {:induction false} GetPutLE(v: nat, width: nat)
    requires v < Pow256(width)
    ensures GetLE(PutLE(v, width)) == v
  {
    if width > 0 {
      GetPutLE(v / 256, width - 1);
      assert PutLE(v, width)[1..] == PutLE(v / 256, width - 1);
    }
  }

  // What comes first weighs least.
  lemma {:induction false} LowBytesFirst(a: seq<byte>, b: seq<byte>)
    ensures GetLE(a + b) == GetLE(a) + Pow256(|a|) * GetLE(b)
  {
    if a == [] {
      assert a + b == b;
    } else {
      assert (a + b)[1..] == a[1..] + b;
      LowBytesFirst(a[1..], b);
      WeightMoves(GetLE(a[1..]), Pow256(|a| - 1), GetLE(b));
    }
  }

  lemma WeightMoves(x: nat, p: nat, y: nat)
    ensures 256 * (x + p * y) == 256 * x + (256 * p) * y
  {
  }

  lemma Widths()
    ensures Pow256(1) == 256 && Pow256(2) == 0x1_0000 && Pow256(4) == TWO_32 && Pow256(8) == TWO_64
  {
    assert Pow256(1) == 256;
    assert Pow256(2) == 0x1_0000;
    assert Pow256(3) == 0x100_0000;
    assert Pow256(4) == TWO_32;
    assert Pow256(5) == 256 * TWO_32;
    assert Pow256(6) == 0x1_0000 * TWO_32;
    assert Pow256(7) == 0x100_0000 * TWO_32;
  }

  // The big-endian 16-bit word at offset i.
  function Word16(s: seq<byte>, i: nat): (w: nat)
    requires i + 2 <= |s|
    ensures w < 0x1_0000
  {
    (s[i] as int) * 256 + (s[i + 1] as int)
  }

  // Strings of bytes in dictionary order.
  predicate LexLess(a: seq<byte>, b: seq<byte>) {
    b != [] && (a == [] || (if a[0] != b[0] then a[0] < b[0] else LexLess(a[1..], b[1..])))
  }

  lemma {:induction false} LexOrder(a: seq<byte>, b: seq<byte>, c: seq<byte>)
    ensures !(LexLess(a, b) && LexLess(b, a))
    ensures a == b || LexLess(a, b) || LexLess(b, a)
    ensures LexLess(a, b) && LexLess(b, c) ==> LexLess(a, c)
  {
    if a != [] && b != [] {
      LexOrder(a[1..], b[1..], if c == [] then [] else c[1..]);
      assert a == [a[0]] + a[1..] && b == [b[0]] + b[1..];
    }
  }

  // Names on the wire and in policies are ASCII.

  const DOT: byte := 46
  const HYPHEN: byte := 45
  const UNDERSCORE: byte := 95

  predicate IsUpper(b: byte) { 65 <= b <= 90 }

  function LowerByte(b: byte): byte { if IsUpper(b) then b + 32 else b }

  // A letter in lower case, a digit, '-' or '_'.
  predicate IsLabelByte(b: byte) {
    97 <= b <= 122 || 48 <= b <= 57 || b == HYPHEN || b == UNDERSCORE
  }

  // The same in letters.
  lemma Alphabet(b: byte)
    ensures var c := b as char;
      && (IsLabelByte(b) <==> 'a' <= c <= 'z' || '0' <= c <= '9' || c == '-' || c == '_')
      && (if 'A' <= c <= 'Z' then LowerByte(b) == b - 'A' as int + 'a' as int else LowerByte(b) == b)
      && (b == DOT <==> c == '.')
  {
  }

  function ZeroPadded(s: seq<byte>, width: nat): (r: seq<byte>)
    requires |s| <= width
    ensures |r| == width
  {
    s + seq(width - |s|, _ => 0)
  }
}
