/**
 Low-byte-first loads and stores. `Val` and `Bytes` say what a byte sequence means as a number; the
 shift-and-add forms and the single-access forms are both measured against them.
 */
module ByteOrder {
  import opened Base

  type byte = x: int | 0 <= x < 256

  function Val(b: seq<byte>): nat {
    if b == [] then 0 else b[0] + 256 * Val(b[1..])
  }

  function Bytes(n: nat, v: nat): (b: seq<byte>)
    ensures |b| == n
  {
    if n == 0 then [] else [v % 256] + Bytes(n - 1, v / 256)
  }

  function Pow256(n: nat): (p: nat)
    ensures p > 0
  {
    if n == 0 then 1 else 256 * Pow256(n - 1)
  }

  // ---------------------------------------------------------------- round trips

  lemma PowValues()
    ensures Pow256(0) == 1 && Pow256(1) == 0x100 && Pow256(2) == 0x1_0000 && Pow256(3) == 0x100_0000
    ensures Pow256(4) == U32 && Pow256(5) == 0x100_0000_0000 && Pow256(6) == 0x1_0000_0000_0000
    ensures Pow256(8) == U64
  {
    assert Pow256(7) == 256 * Pow256(6);
  }

  lemma MulMonotone(d: nat, x: nat, y: nat)
    requires x <= y
    ensures d * x <= d * y
  {
  }

  lemma DivModUnique(v: nat, d: nat, k: nat, r: nat)
    requires v == d * k + r && r < d
    ensures v % d == r && v / d == k
  {
    var q := v / d;
    assert v == d * q + v % d;
    if q < k {
      MulMonotone(d, q + 1, k);
      assert false;
    } else if k < q {
      MulMonotone(d, k + 1, q);
      assert false;
    }
  }

  lemma DivModByByte(v: nat, p: nat)
    requires p > 0
    ensures v % (256 * p) == v % 256 + 256 * (v / 256 % p)
    ensures v / (256 * p) == v / 256 / p
  {
    var q := v / 256;
    var k, m := q / p, q % p;
    assert q == p * k + m;
    assert 256 * (p * k) == (256 * p) * k;
    DivModUnique(v, 256 * p, k, v % 256 + 256 * m);
  }

  /** Loading what was stored gives the number back, cut to the bytes there are. */
  lemma {:induction false} LoadAfterStore(n: nat, v: nat)
    ensures Val(Bytes(n, v)) == v % Pow256(n)
  {
    if n > 0 {
      assert Bytes(n, v)[1..] == Bytes(n - 1, v / 256);
      LoadAfterStore(n - 1, v / 256);
      DivModByByte(v, Pow256(n - 1));
    }
  }

  /** Storing what was loaded gives the bytes back. */
  lemma {:induction false} StoreAfterLoad(b: seq<byte>)
    ensures Bytes(|b|, Val(b)) == b
  {
    if b != [] {
      StoreAfterLoad(b[1..]);
      assert Val(b) % 256 == b[0] && Val(b) / 256 == Val(b[1..]);
    }
  }

  /** Byte sequences of one length that mean the same number are the same. */
  lemma ValIsInjective(a: seq<byte>, b: seq<byte>)
    requires |a| == |b| && Val(a) == Val(b)
    ensures a == b
  {
    StoreAfterLoad(a);
    StoreAfterLoad(b);
  }

  lemma Distribute(x: nat, p: nat, w: nat)
    ensures 256 * (x + p * w) == 256 * x + (256 * p) * w
  {
  }

  lemma {:induction false} ValConcat(a: seq<byte>, b: seq<byte>)
    ensures Val(a + b) == Val(a) + Pow256(|a|) * Val(b)
  {
    if a == [] {
      assert a + b == b;
    } else {
      var p, w := Pow256(|a| - 1), Val(b);
      assert (a + b)[1..] == a[1..] + b;
      ValConcat(a[1..], b);
      Distribute(Val(a[1..]), p, w);
    }
  }

  lemma ValOfTwo(b: seq<byte>)
    requires |b| == 2
    ensures Val(b) == b[0] + 0x100 * (b[1] as int)
  {
    assert Val(b[1..]) == b[1] + 256 * Val(b[1..][1..]);
  }

  lemma ValOfFour(b: seq<byte>)
    requires |b| == 4
    ensures Val(b) == b[0] + 0x100 * (b[1] as int) + 0x1_0000 * (b[2] as int) + 0x100_0000 * (b[3] as int)
  {
    ValOfTwo(b[2..]);
    assert Val(b[1..]) == b[1] + 256 * Val(b[1..][1..]);
    assert b[1..][1..] == b[2..];
  }

  // ---------------------------------------------------------------- shift-and-add loads

  function Shl32(x: nat, factor: nat): nat {
    x * factor % U32
  }

  function Shl64(x: nat, factor: nat): nat {
    x * factor % U64
  }

  function UInt2Korr(a: seq<byte>): nat
    requires |a| >= 2
  {
    (a[0] + Shl32(a[1], 0x100)) % U16
  }

  function UInt3Korr(a: seq<byte>): nat
    requires |a| >= 3
  {
    (a[0] + Shl32(a[1], 0x100) + Shl32(a[2], 0x1_0000)) % U32
  }

  function UInt4Korr(a: seq<byte>): nat
    requires |a| >= 4
  {
    (a[0] + Shl32(a[1], 0x100) + Shl32(a[2], 0x1_0000) + Shl32(a[3], 0x100_0000)) % U32
  }

  function UInt5Korr(a: seq<byte>): nat
    requires |a| >= 5
  {
    (UInt4Korr(a) + Shl64(a[4], U32)) % U64
  }

  function UInt6Korr(a: seq<byte>): nat
    requires |a| >= 6
  {
    (UInt4Korr(a) + Shl64(a[4], U32) + Shl64(a[5], 0x100_0000_0000)) % U64
  }

  function UInt8Korr(a: seq<byte>): nat
    requires |a| >= 8
  {
    (UInt4Korr(a) + Shl64(UInt4Korr(a[4..]), U32)) % U64
  }

  /** A single load from little-endian memory. */
  function LoadWord(a: seq<byte>, n: nat): nat
    requires |a| >= n
  {
    Val(a[..n])
  }

  lemma ShiftedByte(a: byte)
    ensures Shl32(a, 0x100) == 0x100 * (a as int)
    ensures Shl32(a, 0x1_0000) == 0x1_0000 * (a as int)
    ensures Shl32(a, 0x100_0000) == 0x100_0000 * (a as int)
  {
  }

  // The shift-and-add forms compute, without overflow, what a single little-endian load yields.

  lemma UInt2KorrIsLoad(a: seq<byte>)
    requires |a| >= 2
    ensures UInt2Korr(a) == LoadWord(a, 2)
  {
    ValOfTwo(a[..2]);
  }

  lemma UInt4KorrIsLoad(a: seq<byte>)
    requires |a| >= 4
    ensures UInt4Korr(a) == LoadWord(a, 4) < U32
  {
    ShiftedByte(a[1]);
    ShiftedByte(a[2]);
    ShiftedByte(a[3]);
    ValOfFour(a[..4]);
  }

  lemma UInt3KorrIsLoad(a: seq<byte>)
    requires |a| >= 3
    ensures UInt3Korr(a) == LoadWord(a, 3) == a[0] + 0x100 * (a[1] as int) + 0x1_0000 * (a[2] as int)
  {
    ShiftedByte(a[1]);
    ShiftedByte(a[2]);
    assert a[..3][1..] == a[1..3];
    ValOfTwo(a[1..3]);
    assert Val(a[..3]) == a[0] + 256 * Val(a[1..3]);
  }

  lemma UInt6KorrIsLoad(a: seq<byte>)
    requires |a| >= 6
    ensures UInt6Korr(a) == LoadWord(a, 6)
  {
    PowValues();
    UInt4KorrIsLoad(a);
    assert a[..6] == a[..4] + a[4..6];
    ValConcat(a[..4], a[4..6]);
    ValOfTwo(a[4..6]);
  }

  lemma UInt5KorrIsLoad(a: seq<byte>)
    requires |a| >= 5
    ensures UInt5Korr(a) == LoadWord(a, 5)
  {
    PowValues();
    UInt4KorrIsLoad(a);
    assert a[..5] == a[..4] + a[4..5];
    ValConcat(a[..4], a[4..5]);
    assert Val(a[4..5]) == a[4];
  }

  lemma HalvesMakeOne(lo: nat, hi: nat)
    requires lo < U32 && hi < U32
    ensures (lo + Shl64(hi, U32)) % U64 == lo + U32 * hi
  {
    assert hi * U32 + lo < U64;
  }

  lemma UInt8KorrIsLoad(a: seq<byte>)
    requires |a| >= 8
    ensures UInt8Korr(a) == LoadWord(a, 8)
  {
    PowValues();
    UInt4KorrIsLoad(a);
    UInt4KorrIsLoad(a[4..]);
    assert a[..8] == a[..4] + a[4..][..4];
    ValConcat(a[..4], a[4..][..4]);
    HalvesMakeOne(UInt4Korr(a), UInt4Korr(a[4..]));
  }

  // ---------------------------------------------------------------- signed three-byte load

  function BitOr(x: nat, y: nat): nat
    decreases x + y
  {
    if x == 0 && y == 0 then 0
    else (if x % 2 == 1 || y % 2 == 1 then 1 else 0) + 2 * BitOr(x / 2, y / 2)
  }

  function Pow2(k: nat): (p: nat)
    ensures p > 0
  {
    if k == 0 then 1 else 2 * Pow2(k - 1)
  }

  lemma {:induction false} OrWithZero(x: nat)
    ensures BitOr(x, 0) == x
  {
    if x > 0 {
      OrWithZero(x / 2);
    }
  }

  /** On bits that do not overlap, "or" is addition. */
  lemma {:induction false} OrOfDisjoint(h: nat, k: nat, low: nat)
    requires low < Pow2(k)
    ensures BitOr(h * Pow2(k), low) == h * Pow2(k) + low
  {
    if k == 0 {
      OrWithZero(h);
    } else {
      var x := h * Pow2(k);
      assert x == 2 * (h * Pow2(k - 1));
      OrOfDisjoint(h, k - 1, low / 2);
    }
  }

  function ToInt32(u: nat): int {
    if u >= 0x8000_0000 then u - U32 else u
  }

  function SInt3Korr(a: seq<byte>): int
    requires |a| >= 3
  {
    ToInt32(if a[2] / 128 % 2 == 1 then OrOfFour(255, a[2], a[1], a[0]) else OrOfThree(a[2], a[1], a[0]))
  }

  function OrOfFour(a3: byte, a2: byte, a1: byte, a0: byte): nat {
    BitOr(BitOr(BitOr(Shl32(a3, 0x100_0000), Shl32(a2, 0x1_0000)), Shl32(a1, 0x100)), a0)
  }

  function OrOfThree(a2: byte, a1: byte, a0: byte): nat {
    BitOr(BitOr(Shl32(a2, 0x1_0000), Shl32(a1, 0x100)), a0)
  }

  /** The number whose 24-bit two's complement is `u`. */
  function SignExtend24(u: nat): int {
    if u >= 0x80_0000 then u - 0x100_0000 else u
  }

  lemma OrBelow24(h: nat, low: nat)
    requires low < 0x100_0000
    ensures BitOr(h * 0x100_0000, low) == h * 0x100_0000 + low
  {
    assert Pow2(8) == 0x100 && Pow2(16) == 0x100 * Pow2(8) && Pow2(24) == 0x100 * Pow2(16);
    OrOfDisjoint(h, 24, low);
  }

  lemma OrBelow16(h: nat, low: nat)
    requires low < 0x1_0000
    ensures BitOr(h * 0x1_0000, low) == h * 0x1_0000 + low
  {
    assert Pow2(8) == 0x100 && Pow2(16) == 0x100 * Pow2(8);
    OrOfDisjoint(h, 16, low);
  }

  lemma OrBelow8(h: nat, low: nat)
    requires low < 0x100
    ensures BitOr(h * 0x100, low) == h * 0x100 + low
  {
    assert Pow2(8) == 0x100;
    OrOfDisjoint(h, 8, low);
  }

  lemma OrOfThreeIsSum(a2: byte, a1: byte, a0: byte)
    ensures OrOfThree(a2, a1, a0) == (a2 as int) * 0x1_0000 + (a1 as int) * 0x100 + a0
  {
    ShiftedByte(a2);
    ShiftedByte(a1);
    OrBelow16(a2, Shl32(a1, 0x100));
    OrBelow8((a2 as int) * 0x100 + a1, a0);
  }

  lemma OrOfFourIsSum(a3: byte, a2: byte, a1: byte, a0: byte)
    ensures OrOfFour(a3, a2, a1, a0)
         == (a3 as int) * 0x100_0000 + (a2 as int) * 0x1_0000 + (a1 as int) * 0x100 + a0
  {
    ShiftedByte(a3);
    ShiftedByte(a2);
    ShiftedByte(a1);
    OrBelow24(a3, Shl32(a2, 0x1_0000));
    OrBelow16((a3 as int) * 0x100 + a2, Shl32(a1, 0x100));
    OrBelow8((a3 as int) * 0x1_0000 + (a2 as int) * 0x100 + a1, a0);
  }

  /** The three-byte signed load is 24-bit two's complement. */
  lemma SInt3KorrExtendsSign(a: seq<byte>)
    requires |a| >= 3
    ensures SInt3Korr(a) == SignExtend24(LoadWord(a, 3))
  {
    UInt3KorrIsLoad(a);
    OrOfFourIsSum(255, a[2], a[1], a[0]);
    OrOfThreeIsSum(a[2], a[1], a[0]);
  }

  /** Every 24-bit signed number survives a store and a signed load. */
  lemma SignedThreeByteRoundTrip(x: int)
    requires -0x80_0000 <= x < 0x80_0000
    ensures SInt3Korr(Bytes(3, x % U32)) == x
  {
    var u := x % U32;
    assert u == if x < 0 then x + U32 else x;
    PowValues();
    LoadAfterStore(3, u);
    assert u % 0x100_0000 == if x < 0 then x + 0x100_0000 else x;
    SInt3KorrExtendsSign(Bytes(3, u));
    assert Bytes(3, u)[..3] == Bytes(3, u);
  }

  // ---------------------------------------------------------------- stores

  /** `s` with the bytes from `off` on replaced by `b`. */
  function Splice(s: seq<byte>, off: nat, b: seq<byte>): seq<byte>
    requires off + |b| <= |s|
  {
    s[..off] + b + s[off + |b|..]
  }

  lemma {:induction false} ByteAt(n: nat, v: nat, i: nat)
    requires i < n
    ensures Bytes(n, v)[i] == v / Pow256(i) % 256
  {
    if i > 0 {
      ByteAt(n - 1, v / 256, i - 1);
      DivModByByte(v, Pow256(i - 1));
    }
  }

  lemma BytesAt(n: nat, v: nat)
    ensures forall i: nat :: i < n ==> Bytes(n, v)[i] == v / Pow256(i) % 256
  {
    forall i: nat | i < n
      ensures Bytes(n, v)[i] == v / Pow256(i) % 256
    {
      ByteAt(n, v, i);
    }
  }

  lemma BytesOfEight(v: nat)
    ensures Bytes(8, v) == Bytes(4, v % U32) + Bytes(4, v / U32)
  {
    var lo, hi := Bytes(4, v % U32), Bytes(4, v / U32);
    ValConcat(lo, hi);
    LoadAfterStore(4, v % U32);
    LoadAfterStore(4, v / U32);
    LoadAfterStore(8, v);
    PowValues();
    DivModUnique(v, U64, v / U32 / U32, v % U32 + U32 * (v / U32 % U32));
    ValIsInjective(Bytes(8, v), lo + hi);
  }

  lemma SpliceTwice(s: seq<byte>, off: nat, a: seq<byte>, b: seq<byte>)
    requires off + |a| + |b| <= |s|
    ensures Splice(Splice(s, off, a), off + |a|, b) == Splice(s, off, a + b)
  {
  }

  method Int2Store(t: array<byte>, off: nat, a: nat)
    requires off + 2 <= t.Length && a < U16
    modifies t
    ensures t[..] == Splice(old(t[..]), off, Bytes(2, a))
  {
    PowValues();
    BytesAt(2, a);
    t[off] := a % 256;
    t[off + 1] := a / 0x100 % 256;
  }

  method Int3Store(t: array<byte>, off: nat, a: nat)
    requires off + 3 <= t.Length && a < U32
    modifies t
    ensures t[..] == Splice(old(t[..]), off, Bytes(3, a))
  {
    PowValues();
    BytesAt(3, a);
    t[off] := a % 256;
    t[off + 1] := a / 0x100 % 256;
    t[off + 2] := a / 0x1_0000 % 256;
  }

  method Int4Store(t: array<byte>, off: nat, a: nat)
    requires off + 4 <= t.Length && a < U32
    modifies t
    ensures t[..] == Splice(old(t[..]), off, Bytes(4, a))
  {
    PowValues();
    BytesAt(4, a);
    t[off] := a % 256;
    t[off + 1] := a / 0x100 % 256;
    t[off + 2] := a / 0x1_0000 % 256;
    t[off + 3] := a / 0x100_0000 % 256;
  }

  method Int5Store(t: array<byte>, off: nat, a: nat)
    requires off + 5 <= t.Length && a < U64
    modifies t
    ensures t[..] == Splice(old(t[..]), off, Bytes(5, a))
  {
    PowValues();
    BytesAt(5, a);
    t[off] := a % 256;
    t[off + 1] := a / 0x100 % 256;
    t[off + 2] := a / 0x1_0000 % 256;
    t[off + 3] := a / 0x100_0000 % 256;
    t[off + 4] := a / U32 % 256;
  }

  method Int6Store(t: array<byte>, off: nat, a: nat)
    requires off + 6 <= t.Length && a < U64
    modifies t
    ensures t[..] == Splice(old(t[..]), off, Bytes(6, a))
  {
    PowValues();
    BytesAt(6, a);
    t[off] := a % 256;
    t[off + 1] := a / 0x100 % 256;
    t[off + 2] := a / 0x1_0000 % 256;
    t[off + 3] := a / 0x100_0000 % 256;
    t[off + 4] := a / U32 % 256;
    t[off + 5] := a / 0x100_0000_0000 % 256;
  }

  /** The generic form: two four-byte stores. */
  method Int8Store(t: array<byte>, off: nat, a: nat)
    requires off + 8 <= t.Length && a < U64
    modifies t
    ensures t[..] == Splice(old(t[..]), off, Bytes(8, a))
  {
    var low, high := a % U32, a / U32;
    Int4Store(t, off, low);
    Int4Store(t, off + 4, high);
    BytesOfEight(a);
    SpliceTwice(old(t[..]), off, Bytes(4, low), Bytes(4, high));
  }

  /** A number stored by any of these and loaded back from the same place is the number, cut to size; and
      storing a loaded value back changes nothing. */
  lemma StoreLoadRoundTrip(s: seq<byte>, off: nat, n: nat, v: nat)
    requires off + n <= |s|
    ensures LoadWord(Splice(s, off, Bytes(n, v))[off..], n) == v % Pow256(n)
    ensures Splice(s, off, Bytes(n, LoadWord(s[off..], n))) == s
  {
    LoadAfterStore(n, v);
    assert Splice(s, off, Bytes(n, v))[off..][..n] == Bytes(n, v);
    StoreAfterLoad(s[off..][..n]);
    assert s == s[..off] + s[off..][..n] + s[off + n..];
  }
}
