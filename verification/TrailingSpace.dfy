/** Trimming trailing spaces a word at a time, in the unaligned and in the aligned form. */
module TrailingSpace {
  import opened ByteOrder

  const SPACE: byte := 0x20
  const SPACE_8: nat := 0x2020_2020_2020_2020
  const SPACE_INT: nat := 0x2020_2020
  const SIZEOF_INT: nat := 4

  /** The byte-at-a-time loop. */
  function Trimmed(s: seq<byte>): nat {
    if s != [] && s[|s| - 1] == SPACE then Trimmed(s[..|s| - 1]) else |s|
  }

  /** It stops at the end of the last byte that is not a space. */
  lemma {:induction false} TrimmedStops(s: seq<byte>)
    ensures Trimmed(s) <= |s|
    ensures forall i :: Trimmed(s) <= i < |s| ==> s[i] == SPACE
    ensures Trimmed(s) > 0 ==> s[Trimmed(s) - 1] != SPACE
  {
    if s != [] && s[|s| - 1] == SPACE {
      TrimmedStops(s[..|s| - 1]);
    }
  }

  function Spaces(n: nat): seq<byte> {
    seq(n, _ => SPACE)
  }

  lemma {:induction false} TrimmedOfSpaces(s: seq<byte>, n: nat)
    ensures Trimmed(s + Spaces(n)) == Trimmed(s)
  {
    if n == 0 {
      assert s + Spaces(0) == s;
    } else {
      assert (s + Spaces(n))[..|s| + n - 1] == s + Spaces(n - 1);
      TrimmedOfSpaces(s, n - 1);
    }
  }

  lemma TrimmedWord(buf: seq<byte>, n: nat, end: nat)
    requires n <= end <= |buf| && buf[end - n..end] == Spaces(n)
    ensures Trimmed(buf[..end]) == Trimmed(buf[..end - n])
  {
    assert buf[..end] == buf[..end - n] + Spaces(n);
    TrimmedOfSpaces(buf[..end - n], n);
  }

  lemma ValOfSpaces()
    ensures Val(Spaces(4)) == SPACE_INT && Val(Spaces(8)) == SPACE_8
  {
    ValOfFour(Spaces(4));
    PowValues();
    assert Spaces(8) == Spaces(4) + Spaces(4);
    ValConcat(Spaces(4), Spaces(4));
  }

  /** An eight-byte load is the word of spaces exactly when all eight bytes are spaces. */
  lemma EightSpaces(b: seq<byte>)
    requires |b| == 8
    ensures UInt8Korr(b) == SPACE_8 <==> b == Spaces(8)
  {
    UInt8KorrIsLoad(b);
    assert b[..8] == b;
    ValOfSpaces();
    if Val(b) == SPACE_8 {
      ValIsInjective(b, Spaces(8));
    }
  }

  /** Reads eight bytes at a time, then one. Every index is inside `buf`. */
  method SkipTrailingSpace(buf: seq<byte>) returns (end: nat)
    ensures end == Trimmed(buf)
  {
    end := |buf|;
    assert buf[..end] == buf;
    while end >= 8
      invariant 0 <= end <= |buf| && Trimmed(buf[..end]) == Trimmed(buf)
    {
      EightSpaces(buf[end - 8..end]);
      if UInt8Korr(buf[end - 8..end]) != SPACE_8 {
        break;
      }
      TrimmedWord(buf, 8, end);
      end := end - 8;
    }
    end := TrimBytes(buf, end, 0);
  }

  /** Steps back over spaces one byte at a time, as far as `low`. */
  method TrimBytes(buf: seq<byte>, from: nat, low: nat) returns (end: nat)
    requires low <= from <= |buf|
    ensures low <= end <= from
    ensures Trimmed(buf[..end]) == Trimmed(buf[..from])
    ensures end == low || buf[end - 1] != SPACE
    ensures forall i :: end <= i < from ==> buf[i] == SPACE
    ensures low == 0 ==> end == Trimmed(buf[..from])
  {
    end := from;
    while end > low && buf[end - 1] == SPACE
      invariant low <= end <= from && Trimmed(buf[..end]) == Trimmed(buf[..from])
      invariant forall i :: end <= i < from ==> buf[i] == SPACE
    {
      assert buf[..end][..end - 1] == buf[..end - 1];
      end := end - 1;
    }
  }

  predicate Aligned(address: nat) {
    address % SIZEOF_INT == 0
  }

  /** A native word load on a big-endian machine, which needs an aligned address. */
  function LoadInt(b: seq<byte>, address: nat): nat
    requires |b| == SIZEOF_INT && Aligned(address)
  {
    Val([b[3], b[2], b[1], b[0]])
  }

  lemma FourSpaces(b: seq<byte>, address: nat)
    requires |b| == SIZEOF_INT && Aligned(address)
    ensures LoadInt(b, address) == SPACE_INT <==> b == Spaces(4)
  {
    ValOfSpaces();
    var r := [b[3], b[2], b[1], b[0]];
    if Val(r) == SPACE_INT {
      ValIsInjective(r, Spaces(4));
      assert b[0] == r[3] && b[1] == r[2] && b[2] == r[1] && b[3] == r[0];
    }
    if b == Spaces(4) {
      assert r == Spaces(4);
    }
  }

  /** The word boundaries next to the two ends of a buffer, as offsets into it. */
  lemma WordBoundaries(address: nat, len: nat)
    requires len > 20
    ensures var endWords := (address + len) / SIZEOF_INT * SIZEOF_INT - address;
      0 < endWords <= len && Aligned(address + endWords)
    ensures var startWords := (address + SIZEOF_INT - 1) / SIZEOF_INT * SIZEOF_INT - address;
      0 <= startWords <= len && Aligned(address + startWords)
  {
  }

  lemma BoundaryBelow(address: nat, end: nat, low: nat)
    requires low < end && Aligned(address + end) && Aligned(address + low)
    ensures low + SIZEOF_INT <= end && Aligned(address + end - SIZEOF_INT)
  {
  }

  /** Steps back over aligned words of spaces, as far as the boundary `low`. */
  method TrimWords(buf: seq<byte>, address: nat, from: nat, low: nat) returns (end: nat)
    requires low <= from <= |buf| && Aligned(address + from) && Aligned(address + low)
    ensures low <= end <= from && Trimmed(buf[..end]) == Trimmed(buf[..from])
  {
    end := from;
    while end > low
      invariant low <= end <= from && Aligned(address + end)
      invariant Trimmed(buf[..end]) == Trimmed(buf[..from])
    {
      BoundaryBelow(address, end, low);
      FourSpaces(buf[end - SIZEOF_INT..end], address + end - SIZEOF_INT);
      if LoadInt(buf[end - SIZEOF_INT..end], address + end - SIZEOF_INT) != SPACE_INT {
        break;
      }
      TrimmedWord(buf, SIZEOF_INT, end);
      end := end - SIZEOF_INT;
    }
  }

  /** Reads aligned words between the first and the last word boundary of the buffer, which starts at
      `address`; every index is inside `buf`, and every word read is aligned. */
  method SkipTrailingSpaceAligned(buf: seq<byte>, address: nat) returns (end: nat)
    ensures end == Trimmed(buf)
  {
    end := |buf|;
    assert buf[..end] == buf;
    if |buf| > 20 {
      WordBoundaries(address, |buf|);
      var endWords := (address + |buf|) / SIZEOF_INT * SIZEOF_INT - address;
      var startWords := (address + SIZEOF_INT - 1) / SIZEOF_INT * SIZEOF_INT - address;
      assert endWords > 0;
      end := TrimBytes(buf, end, endWords);
      if buf[end - 1] == SPACE && startWords < endWords {
        end := TrimWords(buf, address, end, startWords);
      }
    }
    end := TrimBytes(buf, end, 0);
  }
}
