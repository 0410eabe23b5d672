/** Fixed-width words, little- and big-endian byte strings, and bitwise operators on naturals. */
module Bytes {

  type byte = x: int | 0 <= x < 0x100
  type u16 = x: int | 0 <= x < 0x1_0000
  type u32 = x: int | 0 <= x < 0x1_0000_0000
  type u64 = x: int | 0 <= x < 0x1_0000_0000_0000_0000

  function Pow2(k: nat): (r: nat)
    ensures r > 0
  {
    if k == 0 then 1 else 2 * Pow2(k - 1)
  }

  function Pow256(k: nat): (r: nat)
    ensures r > 0
  {
    if k == 0 then 1 else 0x100 * Pow256(k - 1)
  }

  lemma SubSlice<X>(s: seq<X>, i: nat, n: nat, k: nat, m: nat)
    requires i + n <= |s| && k + m <= n
    ensures s[i..i + n][k..k + m] == s[i + k..i + k + m]
  {
    var a, b := s[i..i + n][k..k + m], s[i + k..i + k + m];
    forall j | 0 <= j < m ensures a[j] == b[j] {
      assert a[j] == s[i..i + n][k + j];
    }
  }

  // ----- byte strings -----

  /** The number a little-endian byte string stands for. */
  function LE(bs: seq<byte>): (r: nat)
    ensures r < Pow256(|bs|)
  {
    if bs == [] then 0 else bs[0] + 0x100 * LE(bs[1..])
  }

  /** The number a big-endian (network order) byte string stands for. */
  function BE(bs: seq<byte>): (r: nat)
  {
    if bs == [] then 0 else 0x100 * BE(bs[..|bs| - 1]) + bs[|bs| - 1]
  }

  /** The low `k` bytes of `n`, least significant first. */
  function ToLE(n: nat, k: nat): (bs: seq<byte>)
    ensures |bs| == k
  {
    if k == 0 then [] else [n % 0x100] + ToLE(n / 0x100, k - 1)
  }

  lemma {:induction false} ToLEOfLE(bs: seq<byte>)
    ensures ToLE(LE(bs), |bs|) == bs
  {
    if bs != [] {
      ToLEOfLE(bs[1..]);
      assert LE(bs) % 0x100 == bs[0] && LE(bs) / 0x100 == LE(bs[1..]);
    }
  }

  lemma {:induction false} LEOfToLE(n: nat, k: nat)
    requires n < Pow256(k)
    ensures LE(ToLE(n, k)) == n
  {
    if k > 0 {
      assert n / 0x100 < Pow256(k - 1);
      LEOfToLE(n / 0x100, k - 1);
      assert ToLE(n, k)[1..] == ToLE(n / 0x100, k - 1);
    }
  }

  lemma LEInjective(a: seq<byte>, b: seq<byte>)
    requires |a| == |b| && LE(a) == LE(b)
    ensures a == b
  {
    ToLEOfLE(a);
    ToLEOfLE(b);
  }

  /** `n` moved up by `k` bytes. */
  function ShlBytes(n: nat, k: nat): (r: nat)
  {
    if k == 0 then n else 0x100 * ShlBytes(n, k - 1)
  }

  lemma {:induction false} LEAppend(a: seq<byte>, b: seq<byte>)
    ensures LE(a + b) == LE(a) + ShlBytes(LE(b), |a|)
  {
    if a == [] {
      assert a + b == b;
    } else {
      assert (a + b)[1..] == a[1..] + b;
      LEAppend(a[1..], b);
    }
  }

  lemma LE2(bs: seq<byte>)
    requires |bs| == 2
    ensures LE(bs) == bs[0] + 0x100 * (bs[1] as int)
  {
    assert bs[1..][1..] == [];
    assert LE(bs[1..]) == bs[1];
  }

  /** The low two bytes of a little-endian string are its value modulo 2^16. */
  lemma LELow2(bs: seq<byte>)
    requires |bs| >= 2
    ensures LE(bs[..2]) == LE(bs) % 0x1_0000
  {
    hide LE, ShlBytes;
    var lo, hi := bs[..2], LE(bs[2..]);
    assert bs == lo + bs[2..];
    LEAppend(lo, bs[2..]);
    LE2(lo);
    ShlBytes2(hi);
    ModLow(LE(lo), hi);
  }

  lemma ShlBytes2(n: nat)
    ensures ShlBytes(n, 2) == 0x1_0000 * n
  {
    assert ShlBytes(n, 1) == 0x100 * n;
  }

  lemma ModLow(lo: u16, hi: nat)
    ensures (lo + 0x1_0000 * hi) % 0x1_0000 == lo
  {
  }

  // ----- 16-bit byte order -----

  /** Host-to-network order of a 16-bit word on a little-endian host. */
  function Swap16(x: u16): (r: u16)
    ensures r % 0x100 == x / 0x100 && r / 0x100 == x % 0x100
  {
    x % 0x100 * 0x100 + x / 0x100
  }

  lemma SwapSwap(x: u16)
    ensures Swap16(Swap16(x)) == x
  {
  }

  lemma BE2(bs: seq<byte>)
    requires |bs| == 2
    ensures BE(bs) == 0x100 * (bs[0] as int) + bs[1]
  {
    assert bs[..1][..0] == [];
    assert BE(bs[..1]) == bs[0];
  }

  /** Loading a network-order pair on a little-endian host yields the swapped word. */
  lemma LEIsSwappedBE(bs: seq<byte>)
    requires |bs| == 2
    ensures BE(bs) == 0x100 * (bs[0] as int) + bs[1]
    ensures LE(bs) == bs[0] + 0x100 * (bs[1] as int)
    ensures BE(bs) < 0x1_0000 && LE(bs) == Swap16(BE(bs))
  {
    hide LE, BE, Swap16;
    LE2(bs);
    BE2(bs);
    SwapPair(bs[0], bs[1]);
  }

  lemma SwapPair(hi: byte, lo: byte)
    ensures Swap16(0x100 * (hi as int) + lo) == hi + 0x100 * (lo as int)
  {
  }

  // ----- bitwise operators -----

  function And(a: nat, b: nat): (r: nat)
    ensures r <= a && r <= b
  {
    if a == 0 || b == 0 then 0 else (a % 2) * (b % 2) + 2 * And(a / 2, b / 2)
  }

  function Or(a: nat, b: nat): (r: nat)
    ensures r <= a + b
  {
    if a == 0 then b else if b == 0 then a
    else (if a % 2 == 0 && b % 2 == 0 then 0 else 1) + 2 * Or(a / 2, b / 2)
  }

  function Bit(a: nat, k: nat): bool
  {
    if k == 0 then a % 2 == 1 else Bit(a / 2, k - 1)
  }

  /** `And` is the bitwise conjunction. */
  lemma {:induction false} AndBit(a: nat, b: nat, k: nat)
    ensures Bit(And(a, b), k) <==> Bit(a, k) && Bit(b, k)
  {
    if a == 0 || b == 0 {
      ZeroBit(k);
    } else if k > 0 {
      assert And(a, b) / 2 == And(a / 2, b / 2);
      AndBit(a / 2, b / 2, k - 1);
    } else {
      assert And(a, b) % 2 == (a % 2) * (b % 2) % 2;
    }
  }

  lemma {:induction false} ZeroBit(k: nat)
    ensures !Bit(0, k)
  {
    if k > 0 {
      ZeroBit(k - 1);
    }
  }

  lemma {:induction false} AndZero(a: nat)
    ensures And(a, 0) == 0 && And(0, a) == 0
  {
  }

  /** `n` moved up by `k` bits. */
  function Shl(n: nat, k: nat): (r: nat)
  {
    if k == 0 then n else 2 * Shl(n, k - 1)
  }

  /** `And` works on the low `k` bits and on the rest independently. */
  lemma {:induction false} AndSplit(k: nat, x: nat, y: nat, u: nat, v: nat)
    requires x < Pow2(k) && u < Pow2(k)
    ensures And(x + Shl(y, k), u + Shl(v, k)) == And(x, u) + Shl(And(y, v), k)
  {
    hide And;
    if k == 0 {
      assert x == 0 && u == 0;
      AndZero(0);
    } else {
      var p, q := Shl(y, k - 1), Shl(v, k - 1);
      AndSplit(k - 1, x / 2, y, u / 2, v);
      AndStep(x + 2 * p, u + 2 * q);
      AndStep(x, u);
      Halve(x, p);
      Halve(u, q);
    }
  }

  lemma Halve(x: nat, p: nat)
    ensures (x + 2 * p) % 2 == x % 2 && (x + 2 * p) / 2 == x / 2 + p
  {
  }

  lemma AndStep(a: nat, b: nat)
    ensures And(a, b) == (a % 2) * (b % 2) + 2 * And(a / 2, b / 2)
  {
    if a == 0 || b == 0 {
      assert And(a / 2, b / 2) == 0;
    }
  }

  lemma AndSplitByte(x: byte, y: nat, u: byte, v: nat)
    ensures And(x + 0x100 * y, u + 0x100 * v) == And(x, u) + 0x100 * And(y, v)
  {
    assert Pow2(8) == 0x100;
    AndSplit(8, x, y, u, v);
    ShlIsMul(y, 8);
    ShlIsMul(v, 8);
    ShlIsMul(And(y, v), 8);
  }

  lemma {:induction false} ShlIsMul(n: nat, k: nat)
    ensures Shl(n, k) == Pow2(k) * n
  {
    if k > 0 {
      ShlIsMul(n, k - 1);
      assert Pow2(k) * n == 2 * (Pow2(k - 1) * n);
    }
  }

  /** Bytewise conjunction of two equally long strings. */
  function AndBytes(a: seq<byte>, b: seq<byte>): (r: seq<byte>)
    requires |a| == |b|
    ensures |r| == |a|
    ensures forall i :: 0 <= i < |r| ==> r[i] == And(a[i], b[i])
  {
    if a == [] then [] else [And(a[0], b[0])] + AndBytes(a[1..], b[1..])
  }

  lemma {:induction false} AndLE(a: seq<byte>, b: seq<byte>)
    requires |a| == |b|
    ensures And(LE(a), LE(b)) == LE(AndBytes(a, b))
  {
    if a != [] {
      AndLE(a[1..], b[1..]);
      AndSplitByte(a[0], LE(a[1..]), b[0], LE(b[1..]));
      assert AndBytes(a, b)[1..] == AndBytes(a[1..], b[1..]);
    }
  }

  /** Disjunction of a shifted word with a short one is addition. */
  lemma {:induction false} OrShifted(k: nat, x: nat, y: nat)
    requires x < Pow2(k)
    ensures Or(Shl(y, k), x) == Shl(y, k) + x
  {
    if k > 0 {
      OrShifted(k - 1, x / 2, y);
    }
  }

  lemma AndAllOnes(x: byte)
    ensures And(x, 0xff) == x
  {
    assert And(x, 0xff) == x by {
      AndOnes(8, x);
      assert Pow2(8) == 0x100;
    }
  }

  lemma {:induction false} AndOnes(k: nat, x: nat)
    requires x < Pow2(k)
    ensures And(x, Pow2(k) - 1) == x
  {
    if k > 0 {
      assert (Pow2(k) - 1) / 2 == Pow2(k - 1) - 1;
      AndOnes(k - 1, x / 2);
      AndStep(x, Pow2(k) - 1);
    }
  }

  // ----- 64-bit words made of two halves -----

  lemma Pow32()
    ensures Pow2(32) == 0x1_0000_0000
  {
    assert Pow2(8) == 0x100;
    assert Pow2(16) == 0x1_0000;
    assert Pow2(24) == 0x100_0000;
  }

  lemma Shl32(n: nat)
    ensures Shl(n, 32) == 0x1_0000_0000 * n
  {
    Pow32();
    ShlIsMul(n, 32);
  }

  lemma ShlBytes4(n: nat)
    ensures ShlBytes(n, 4) == 0x1_0000_0000 * n
  {
    assert ShlBytes(n, 1) == 0x100 * n;
    assert ShlBytes(n, 3) == 0x100_0000 * n;
  }

  /** A 64-bit constant assembled by shift and or from its 32-bit halves. */
  lemma OrOfHalves(b: seq<byte>)
    requires |b| == 8
    ensures LE(b) < 0x1_0000_0000_0000_0000
    ensures LE(b[4..8]) < 0x1_0000_0000 && LE(b[0..4]) < 0x1_0000_0000
    ensures Shl(LE(b[4..8]), 32) < 0x1_0000_0000_0000_0000
    ensures Or(Shl(LE(b[4..8]), 32), LE(b[0..4])) == LE(b)
  {
    hide LE, Shl, Or, ShlBytes, Pow2;
    var hi, lo := LE(b[4..8]), LE(b[0..4]);
    assert hi < 0x1_0000_0000 && lo < 0x1_0000_0000;
    assert LE(b) == lo + 0x1_0000_0000 * hi by {
      assert b == b[0..4] + b[4..8];
      LEAppend(b[0..4], b[4..8]);
      ShlBytes4(hi);
    }
    Shl32(hi);
    Pow32();
    OrShifted(32, lo, hi);
  }

  // ----- division -----

  lemma ModUnique(x: int, m: nat, q: int, y: int)
    requires m > 0 && 0 <= y < m && x == y + m * q
    ensures x % m == y
  {
    var d := x / m - q;
    assert x == m * (x / m) + x % m;
    assert y - x % m == m * d by {
      assert m * (x / m) - m * q == m * d;
    }
    SmallMultiple(m, d, y - x % m);
  }

  lemma SmallMultiple(m: nat, d: int, z: int)
    requires z == m * d && -(m as int) < z < m
    ensures z == 0
  {
  }
}
