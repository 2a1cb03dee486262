/**
 Big-endian numbers: the fixed-width integers of the TPM structures and the
 minimal byte strings of Go's big.Int.
 */
module BigEndian {
  newtype byte = x: int | 0 <= x < 0x100
  newtype uint16 = x: int | 0 <= x < 0x1_0000
  newtype uint32 = x: int | 0 <= x < 0x1_0000_0000
  newtype int64 = x: int | -0x8000_0000_0000_0000 <= x < 0x8000_0000_0000_0000

  const MAX_UINT16 := 0xFFFF
  const MAX_UINT32 := 0xFFFF_FFFF

  function Pow256(n: nat): (p: nat)
    ensures p > 0
  {
    if n == 0 then 1 else 256 * Pow256(n - 1)
  }

  /** The number a byte string stands for, most significant byte first (big.Int.SetBytes). */
  function Value(b: seq<byte>): (v: nat) {
    if b == [] then 0 else 256 * Value(b[..|b| - 1]) + b[|b| - 1] as nat
  }

  /** The low `width` bytes of v. */
  function Fixed(v: nat, width: nat): (b: seq<byte>)
    ensures |b| == width
  {
    if width == 0 then [] else Fixed(v / 256, width - 1) + [(v % 256) as byte]
  }

  /** The shortest byte string for v (big.Int.Bytes). */
  function Minimal(v: nat): (b: seq<byte>) {
    if v == 0 then [] else Minimal(v / 256) + [(v % 256) as byte]
  }

  /** big.Int.BitLen. */
  function BitLen(v: nat): nat {
    if v == 0 then 0 else 1 + BitLen(v / 2)
  }

  lemma {:induction false} ValueOfFixed(v: nat, width: nat)
    ensures v < Pow256(width) ==> Value(Fixed(v, width)) == v
  {
    if width > 0 && v < Pow256(width) {
      assert v / 256 < Pow256(width - 1);
      ValueOfFixed(v / 256, width - 1);
      assert Fixed(v, width)[..width - 1] == Fixed(v / 256, width - 1);
    }
  }

  lemma {:induction false} FixedOfValue(b: seq<byte>)
    ensures Fixed(Value(b), |b|) == b
    ensures Value(b) < Pow256(|b|)
  {
    if b != [] {
      FixedOfValue(b[..|b| - 1]);
      assert b == b[..|b| - 1] + [b[|b| - 1]];
    }
  }

  lemma {:induction false} ValueOfMinimal(v: nat)
    ensures Value(Minimal(v)) == v
    ensures v > 0 ==> Minimal(v) != [] && Minimal(v)[0] != 0
  {
    if v > 0 {
      ValueOfMinimal(v / 256);
      assert Minimal(v)[..|Minimal(v)| - 1] == Minimal(v / 256);
    }
  }

  lemma {:induction false} BitLenShift4(v: nat)
    requires v >= 16
    ensures BitLen(v) == 4 + BitLen(v / 16)
  {
    assert BitLen(v) == 1 + BitLen(v / 2);
    assert BitLen(v / 2) == 1 + BitLen(v / 4);
    assert BitLen(v / 4) == 1 + BitLen(v / 8);
    assert BitLen(v / 8) == 1 + BitLen(v / 16);
  }

  function Pow2(k: nat): nat {
    if k == 0 then 1 else 2 * Pow2(k - 1)
  }

  lemma {:induction false} BitLenAtMost(v: nat, k: nat)
    requires v < Pow2(k)
    ensures BitLen(v) <= k
  {
    if v > 0 {
      BitLenAtMost(v / 2, k - 1);
    }
  }

  /** The byte length of a number is its bit length over 8, rounded up. */
  lemma {:induction false} MinimalLength(v: nat)
    ensures |Minimal(v)| == (BitLen(v) + 7) / 8
  {
    if v >= 256 {
      MinimalLength(v / 256);
      BitLenShift4(v);
      BitLenShift4(v / 16);
    } else if v > 0 {
      assert Pow2(8) == 2 * Pow2(7) && Pow2(7) == 2 * Pow2(6) && Pow2(6) == 64;
      BitLenAtMost(v, 8);
      assert Minimal(v / 256) == [];
    }
  }

  function U32(n: uint32): (b: seq<byte>)
    ensures |b| == 4
  {
    Fixed(n as nat, 4)
  }

  function U16(n: uint16): (b: seq<byte>)
    ensures |b| == 2
  {
    Fixed(n as nat, 2)
  }

  lemma Pow256Widths()
    ensures Pow256(2) == 0x1_0000
    ensures Pow256(4) == 0x1_0000_0000
  {
    assert Pow256(1) == 256;
    assert Pow256(2) == 256 * Pow256(1);
    assert Pow256(3) == 256 * Pow256(2);
    assert Pow256(4) == 256 * Pow256(3);
  }

  // ----- Byte and bit order ------------------------------------------------------------------

  /** The four bytes of a number, most significant first. */
  function Be32(n: uint32): seq<byte> {
    [(n / 0x100_0000) as byte, (n / 0x1_0000 % 0x100) as byte, (n / 0x100 % 0x100) as byte, (n % 0x100) as byte]
  }

  function Be16(n: uint16): seq<byte> {
    [(n / 0x100) as byte, (n % 0x100) as byte]
  }

  lemma FixedFour(v: nat)
    ensures Fixed(v, 4) == [(v / 256 / 256 / 256 % 256) as byte, (v / 256 / 256 % 256) as byte, (v / 256 % 256) as byte, (v % 256) as byte]
    ensures Fixed(v, 2) == [(v / 256 % 256) as byte, (v % 256) as byte]
  {
    assert Fixed(v / 256 / 256 / 256, 1) == Fixed(v / 256 / 256 / 256 / 256, 0) + [(v / 256 / 256 / 256 % 256) as byte];
    assert Fixed(v / 256 / 256, 2) == Fixed(v / 256 / 256 / 256, 1) + [(v / 256 / 256 % 256) as byte];
    assert Fixed(v / 256, 3) == Fixed(v / 256 / 256, 2) + [(v / 256 % 256) as byte];
    assert Fixed(v / 256, 1) == Fixed(v / 256 / 256, 0) + [(v / 256 % 256) as byte];
  }

  /** The fixed-width integers are written in network byte order. */
  lemma NetworkOrder(n: uint32, m: uint16)
    ensures U32(n) == Be32(n) && U16(m) == Be16(m)
  {
    FixedFour(n as nat);
    FixedFour(m as nat);
  }

  /** So are the numbers of any length: the first byte counts most. */
  lemma {:induction false} ValueOfFirst(first: byte, rest: seq<byte>)
    ensures Value([first] + rest) == first as nat * Pow256(|rest|) + Value(rest)
  {
    if rest == [] {
      assert Value([]) == 0;
      assert ([first] + rest)[..0] == [];
    } else {
      var n := |rest| - 1;
      ValueOfFirst(first, rest[..n]);
      assert ([first] + rest)[..n + 1] == [first] + rest[..n];
    }
  }

  /** The bit length is the number of the highest bit set, counted from one. */
  lemma {:induction false} BitLenExact(v: nat)
    ensures v < Pow2(BitLen(v))
    ensures v > 0 ==> BitLen(v) > 0 && Pow2(BitLen(v) - 1) <= v
  {
    if v > 0 {
      BitLenExact(v / 2);
    }
  }
}
