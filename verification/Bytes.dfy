/** Machine integers and little-endian byte strings. */
module Bytes {
  type byte = x: int | 0 <= x < 0x100
  type uint32 = x: int | 0 <= x < 0x1_0000_0000
  type uint64 = x: int | 0 <= x < 0x1_0000_0000_0000_0000

  function Rep(b: byte, n: nat): (s: seq<byte>)
    ensures |s| == n && forall i :: 0 <= i < n ==> s[i] == b
  {
    seq(n, _ => b)
  }

  function Min(a: nat, b: nat): nat {
    if a <= b then a else b
  }

  function Pow256(w: nat): (p: nat)
    ensures p >= 1
  {
    if w == 0 then 1 else 256 * Pow256(w - 1)
  }

  /** The w low bytes of v, least significant first. */
  function LE(v: nat, w: nat): (s: seq<byte>)
    ensures |s| == w
  {
    if w == 0 then [] else [v % 256] + LE(v / 256, w - 1)
  }

  function UnLE(s: seq<byte>): nat {
    if s == [] then 0 else s[0] + 256 * UnLE(s[1..])
  }

  lemma {:induction false} DecodeEncode(v: nat, w: nat)
    requires v < Pow256(w)
    ensures UnLE(LE(v, w)) == v
  {
    if w > 0 {
      DecodeEncode(v / 256, w - 1);
      assert LE(v, w)[1..] == LE(v / 256, w - 1);
    }
  }

  lemma {:induction false} EncodeDecode(s: seq<byte>)
    ensures UnLE(s) < Pow256(|s|)
    ensures LE(UnLE(s), |s|) == s
  {
    if s != [] {
      var r, w := s[1..], |s| - 1;
      EncodeDecode(r);
      FirstDigit(UnLE(s), s[0], UnLE(r));
      assert LE(UnLE(s), |s|) == [s[0]] + LE(UnLE(r), w);
      assert Pow256(|s|) == 256 * Pow256(w);
    }
  }

  lemma FirstDigit(v: nat, d: byte, t: nat)
    requires v == d + 256 * t
    ensures v % 256 == d && v / 256 == t
  {
  }

  lemma Width32()
    ensures Pow256(4) == 0x1_0000_0000
  {
    assert Pow256(2) == 65536;
  }

  lemma Width64()
    ensures Pow256(8) == 0x1_0000_0000_0000_0000
  {
    Width32();
    assert Pow256(6) == 65536 * Pow256(4);
  }

  function LE32(v: uint32): (s: seq<byte>)
    ensures |s| == 4
  {
    LE(v, 4)
  }

  function U32(s: seq<byte>): (v: uint32)
    requires |s| == 4
  {
    EncodeDecode(s);
    Width32();
    UnLE(s)
  }

  function LE64(v: uint64): (s: seq<byte>)
    ensures |s| == 8
  {
    LE(v, 8)
  }

  function U64(s: seq<byte>): (v: uint64)
    requires |s| == 8
  {
    EncodeDecode(s);
    Width64();
    UnLE(s)
  }

  lemma RoundTrip32(v: uint32)
    ensures U32(LE32(v)) == v
  {
    Width32();
    DecodeEncode(v, 4);
  }

  lemma RoundTrip64(v: uint64)
    ensures U64(LE64(v)) == v
  {
    Width64();
    DecodeEncode(v, 8);
  }

  lemma BytesOfU32(s: seq<byte>)
    requires |s| == 4
    ensures LE32(U32(s)) == s
  {
    EncodeDecode(s);
  }

  // ---------------------------------------------------------------- which byte goes where

  lemma MulOrder(a: int, b: int, m: nat)
    ensures a <= b ==> a * m <= b * m
  {
  }

  lemma DivIs(x: nat, q: nat, m: nat, r: nat)
    requires m > 0 && r < m && x == q * m + r
    ensures x / m == q
  {
    var d := x / m - q;
    assert (x / m) * m == x - x % m;
    assert d * m == (x / m) * m - q * m;
    MulOrder(1, d, m);
    MulOrder(d, -1, m);
  }

  lemma DivDiv(v: nat, a: nat, b: nat)
    requires a > 0 && b == 256 * a
    ensures v / b == v / 256 / a
  {
    var h := v / 256;
    var q, t := h / a, h % a;
    var x := q * a;
    assert h == x + t && v == 256 * x + (256 * t + v % 256);
    assert 256 * x == q * b;
    DivIs(v, q, b, 256 * t + v % 256);
  }

  /** Byte k of an encoding is the k-th digit of the number to the base 256. */
  lemma {:induction false} ByteOfLE(v: nat, w: nat, k: nat)
    requires k < w
    ensures LE(v, w)[k] == v / Pow256(k) % 256
    decreases k
  {
    if k > 0 {
      ByteOfLE(v / 256, w - 1, k - 1);
      DivDiv(v, Pow256(k - 1), Pow256(k));
    }
  }

  lemma Bytes32(v: uint32)
    ensures LE32(v)[0] == v % 0x100 && LE32(v)[1] == v / 0x100 % 0x100
    ensures LE32(v)[2] == v / 0x1_0000 % 0x100 && LE32(v)[3] == v / 0x100_0000
  {
    assert Pow256(2) == 0x1_0000 && Pow256(3) == 0x100_0000;
    hide LE;
    ByteOfLE(v, 4, 0);
    ByteOfLE(v, 4, 1);
    ByteOfLE(v, 4, 2);
    ByteOfLE(v, 4, 3);
  }

  /** The number that four bytes stand for when a is the lowest. */
  function Number(a: int, b: int, c: int, d: int): int {
    a + 0x100 * b + 0x1_0000 * c + 0x100_0000 * d
  }

  lemma Value32(s: seq<byte>)
    requires |s| == 4
    ensures U32(s) == Number(s[0], s[1], s[2], s[3])
  {
    assert UnLE(s) == s[0] as int + 256 * UnLE(s[1..]);
    assert s[1..][1..] == s[2..] && s[2..][1..] == s[3..] && s[3..] == [s[3]];
    assert UnLE(s[1..]) == s[1] as int + 256 * UnLE(s[2..]);
    assert UnLE(s[2..]) == s[2] as int + 256 * UnLE(s[3..]);
    assert UnLE([s[3]]) == s[3] as int + 256 * UnLE([]);
  }

  lemma Assoc(a: int, b: int, c: int)
    ensures a * (b * c) == (a * b) * c
  {
  }

  lemma {:induction false} UnLESplit(a: seq<byte>, b: seq<byte>)
    ensures UnLE(a + b) == UnLE(a) + Pow256(|a|) * UnLE(b)
    decreases |a|
  {
    if a == [] {
      assert a + b == b;
    } else {
      assert (a + b)[1..] == a[1..] + b;
      UnLESplit(a[1..], b);
      Assoc(256, Pow256(|a| - 1), UnLE(b));
    }
  }

  lemma Value64(s: seq<byte>)
    requires |s| == 8
    ensures U64(s) == U32(s[..4]) + 0x1_0000_0000 * U32(s[4..])
  {
    assert s == s[..4] + s[4..];
    UnLESplit(s[..4], s[4..]);
    Width32();
  }
}
