/** Machine words, bits, little-endian encoding and the Harp checksum. */
module Basics {

  const TWO_31 := 0x8000_0000
  const TWO_32 := 0x1_0000_0000
  const TWO_64 := 0x1_0000_0000_0000_0000

  type byte = x: int | 0 <= x < 256
  type uint16 = x: int | 0 <= x < 0x1_0000
  type uint32 = x: int | 0 <= x < TWO_32
  type uint64 = x: int | 0 <= x < TWO_64

  datatype Option<+T> = None | Some(value: T)

  function Min(a: int, b: int): int { if a <= b then a else b }

  function Max(a: int, b: int): int { if a <= b then b else a }

  /** The conversion of an integer to uint8_t, uint32_t or uint64_t. */
  function Wrap8(x: int): byte { x % 256 }

  function Wrap32(x: int): uint32 { x % TWO_32 }

  function Wrap64(x: int): uint64 { x % TWO_64 }

  /** The conversion of a uint32_t to int32_t. */
  function Signed32(x: uint32): int { if x < TWO_31 then x else x - TWO_32 }

  /** Some bit of the mask is set. */
  predicate Has(b: bv8, mask: bv8) { b & mask != 0 }

  lemma SameBits(b: bv8)
    ensures (b as byte) as bv8 == b
  {
  }

  /** Bit tests and updates; mask is a single bit, a power of two. */
  predicate HasBit(b: byte, mask: byte)
    requires mask > 0
  {
    b % (2 * mask as int) >= mask
  }

  function SetBit(b: byte, mask: byte): int
    requires mask > 0
  {
    if HasBit(b, mask) then b else b + mask
  }

  /** An offset taken at `now` for the time h makes it h and the time since at t. */
  lemma WrapLater(t: int, now: int, h: int)
    ensures Wrap64(t - Wrap64(now - h)) == Wrap64(h + (t - now))
  {
    var q := (now - h) / TWO_64;
    assert t - Wrap64(now - h) == h + (t - now) + q * TWO_64;
    WrapMultiple(h + (t - now), q);
  }

  lemma WrapMultiple(x: int, q: int)
    ensures Wrap64(x + q * TWO_64) == Wrap64(x)
  {
  }

  /** Little-endian memory images of 16-bit and 32-bit words. */
  function Le16(x: uint16): (s: seq<byte>)
    ensures |s| == 2
  {
    [x % 256, x / 256]
  }

  function Le32(x: uint32): (s: seq<byte>)
    ensures |s| == 4
  {
    [x % 256, x / 0x100 % 256, x / 0x1_0000 % 256, x / 0x100_0000]
  }

  function FromLe16(s: seq<byte>): uint16
    requires |s| == 2
  {
    s[0] as int + 0x100 * (s[1] as int)
  }

  function FromLe32(s: seq<byte>): uint32
    requires |s| == 4
  {
    s[0] as int + 0x100 * (s[1] as int) + 0x1_0000 * (s[2] as int) + 0x100_0000 * (s[3] as int)
  }

  lemma Le32RoundTrip(x: uint32)
    ensures FromLe32(Le32(x)) == x
  {
    assert x / 0x100 == x / 0x100 % 256 + 0x100 * (x / 0x1_0000);
    assert x / 0x1_0000 == x / 0x1_0000 % 256 + 0x100 * (x / 0x100_0000);
  }

  lemma Le32Inverts(s: seq<byte>)
    requires |s| == 4
    ensures Le32(FromLe32(s)) == s
  {
    var x := FromLe32(s);
    var high := s[3] as int;
    var upper := s[2] as int + 256 * high;
    var middle := s[1] as int + 256 * upper;
    LowDigit(s[0], middle);
    LowDigit(s[1], upper);
    LowDigit(s[2], high);
    assert x == s[0] as int + 256 * middle;
    assert x / 0x1_0000 == x / 256 / 256 && x / 0x100_0000 == x / 256 / 256 / 256;
  }

  lemma LowDigit(low: byte, rest: int)
    ensures (low as int + 256 * rest) % 256 == low && (low as int + 256 * rest) / 256 == rest
  {
  }

  lemma Le16RoundTrip(x: uint16)
    ensures FromLe16(Le16(x)) == x
  {
  }

  lemma WrapBack(t: int, h: uint64)
    ensures Wrap64(t - Wrap64(t - h)) == h
  {
    assert t - Wrap64(t - h) == h + (t - h) / TWO_64 * TWO_64;
  }

  /** The low byte of the sum of all bytes. */
  function Checksum(s: seq<byte>): byte {
    if s == [] then 0 else Wrap8(Checksum(s[..|s| - 1]) + s[|s| - 1])
  }

  lemma ChecksumAppend(s: seq<byte>, b: byte)
    ensures Checksum(s + [b]) == Wrap8(Checksum(s) + b)
  {
    assert (s + [b])[..|s|] == s;
  }

  function ByteSum(s: seq<byte>): nat { if s == [] then 0 else s[0] as int + ByteSum(s[1..]) }

  lemma {:induction false} ByteSumAppend(s: seq<byte>, b: byte)
    ensures ByteSum(s + [b]) == ByteSum(s) + b
  {
    if s == [] {
      assert [b][1..] == [];
    } else {
      ByteSumAppend(s[1..], b);
      assert (s + [b])[1..] == s[1..] + [b];
    }
  }

  /** The checksum that is accumulated byte by byte in eight bits is the sum of the bytes, cut to eight bits. */
  lemma {:induction false} ChecksumIsLowByteOfSum(s: seq<byte>)
    ensures Checksum(s) == ByteSum(s) % 256
  {
    if s != [] {
      var front, last := s[..|s| - 1], s[|s| - 1];
      ChecksumIsLowByteOfSum(front);
      ByteSumAppend(front, last);
      assert front + [last] == s;
      WrapStep(ByteSum(front), last);
    }
  }

  lemma WrapStep(sum: nat, b: byte)
    ensures Wrap8(Wrap8(sum) + b) == Wrap8(sum + b)
  {
  }

  lemma ByteSumSplit(a: seq<byte>, b: seq<byte>)
    ensures ByteSum(a + b) == ByteSum(a) + ByteSum(b)
  {
    if a == [] {
      assert a + b == b;
    } else {
      assert (a + b)[1..] == a[1..] + b;
      ByteSumSplit(a[1..], b);
    }
  }

  function Concat<T>(parts: seq<seq<T>>): seq<T> {
    if parts == [] then [] else parts[0] + Concat(parts[1..])
  }

  lemma ConcatOne<T>(part: seq<T>)
    ensures Concat([part]) == part
  {
    assert [part][1..] == [];
    assert part + [] == part;
  }

  lemma Associative<T>(a: seq<T>, b: seq<T>, c: seq<T>)
    ensures a + (b + c) == (a + b) + c
  {
  }

  lemma SliceOfPrefix<T>(s: seq<T>, n: nat, from: nat, to: nat)
    requires from <= to <= n <= |s|
    ensures s[..n][from..to] == s[from..to]
  {
  }

  lemma {:induction false} ConcatAppend<T>(a: seq<seq<T>>, b: seq<seq<T>>)
    ensures Concat(a + b) == Concat(a) + Concat(b)
  {
    if a == [] {
      assert a + b == b;
    } else {
      ConcatAppend(a[1..], b);
      assert (a + b)[1..] == a[1..] + b;
      Associative(a[0], Concat(a[1..]), Concat(b));
    }
  }
}
