/** Machine words of the usecode VM: bytes, 16- and 32-bit words held as
    bounded naturals, their signed (two's complement) views, little-endian
    byte images, bitwise operations and C's truncating division. */
module Words {

  type u8 = x: int | 0 <= x < 0x100
  type u16 = x: int | 0 <= x < 0x10000
  type u32 = x: int | 0 <= x < 0x1_0000_0000

  /** Signed value of an 8-bit immediate (the source's readSByte). */
  function S8(x: u8): (r: int)
    ensures -0x80 <= r < 0x80
  {
    if x < 0x80 then x else x - 0x100
  }

  /** Signed value of a 16-bit word (static_cast<int16>). */
  function S16(x: u16): (r: int)
    ensures -0x8000 <= r < 0x8000
  {
    if x < 0x8000 then x else x - 0x10000
  }

  /** Signed value of a 32-bit word (static_cast<int32>). */
  function S32(x: u32): (r: int)
    ensures -0x8000_0000 <= r < 0x8000_0000
  {
    if x < 0x8000_0000 then x else x - 0x1_0000_0000
  }

  /** Truncation of any integer to 16 bits (static_cast<uint16>). */
  function Wrap16(i: int): u16
  {
    if 0 <= i < 0x10000 then i else i % 0x10000
  }

  /** Truncation of any integer to 32 bits (static_cast<uint32>). */
  function Wrap32(i: int): u32
  {
    i % 0x1_0000_0000
  }

  /** A word minus one in 16-bit arithmetic: 0 wraps to 0xFFFF. */
  function Pred16(x: u16): u16
  {
    if x == 0 then 0xFFFF else x - 1
  }

  /** Pred16 is the truncation of x - 1 to 16 bits. */
  lemma Pred16Wraps(x: u16)
    ensures Pred16(x) == Wrap16(x - 1)
  {
  }

  /** Reading a word as signed and truncating it back gives the word. */
  lemma Wrap16OfSigned(x: u16)
    ensures Wrap16(S16(x)) == x
  {
  }

  /** Every 16-bit signed value survives truncation to 16 bits. */
  lemma SignedOfWrap16(i: int)
    requires -0x8000 <= i < 0x8000
    ensures S16(Wrap16(i)) == i
  {
  }

  lemma SignedOfWrap32(i: int)
    requires -0x8000_0000 <= i < 0x8000_0000
    ensures S32(Wrap32(i)) == i
  {
  }

  /** Sign extension of a 16-bit word to 32 bits (opcode 0x60): the 32-bit
      word has the same signed value. */
  function SignExtend16(x: u16): (r: u32)
    ensures S32(r) == S16(x)
  {
    if x < 0x8000 then x else x + 0xFFFF_0000
  }

  /** The two bytes of a 16-bit word, least significant first. */
  function LE16(v: u16): (b: seq<u8>)
    ensures |b| == 2
  {
    [v % 0x100, v / 0x100]
  }

  function FromLE16(b: seq<u8>): u16
    requires |b| == 2
  {
    b[0] as int + 0x100 * b[1] as int
  }

  /** The four bytes of a 32-bit word, least significant first. */
  function LE32(v: u32): (b: seq<u8>)
    ensures |b| == 4
  {
    [v % 0x100, (v / 0x100) % 0x100, (v / 0x100 / 0x100) % 0x100, v / 0x100 / 0x100 / 0x100]
  }

  function FromLE32(b: seq<u8>): u32
    requires |b| == 4
  {
    b[0] as int + 0x100 * (b[1] as int + 0x100 * (b[2] as int + 0x100 * b[3] as int))
  }

  lemma LE16RoundTrip(v: u16)
    ensures FromLE16(LE16(v)) == v
  {
  }

  lemma FromLE16RoundTrip(b: seq<u8>)
    requires |b| == 2
    ensures LE16(FromLE16(b)) == b
  {
  }

  lemma LE32RoundTrip(v: u32)
    ensures FromLE32(LE32(v)) == v
  {
  }

  /** Splitting off the low byte of lo + 256 * hi. */
  lemma ByteDigit(lo: int, hi: int)
    requires 0 <= lo < 0x100
    ensures (lo + 0x100 * hi) % 0x100 == lo && (lo + 0x100 * hi) / 0x100 == hi
  {
  }

  lemma FromLE32RoundTrip(b: seq<u8>)
    requires |b| == 4
    ensures LE32(FromLE32(b)) == b
  {
    var w2 := b[2] as int + 0x100 * b[3] as int;
    var w1 := b[1] as int + 0x100 * w2;
    ByteDigit(b[0], w1);
    ByteDigit(b[1], w2);
    ByteDigit(b[2], b[3]);
  }

  function Abs(i: int): nat
  {
    if i < 0 then -i else i
  }

  /** C's integer division, which truncates toward zero. */
  function TDiv(a: int, b: int): int
    requires b != 0
  {
    var q := Abs(a) / Abs(b);
    if (a < 0) == (b < 0) then q else -q
  }

  /** C's remainder: a - b * (a / b) with truncating division. */
  function TMod(a: int, b: int): int
    requires b != 0
  {
    a - b * TDiv(a, b)
  }

  /** Dafny's division of naturals: quotient and remainder. */
  lemma NatDivMod(x: nat, y: nat)
    requires y > 0
    ensures x == y * (x / y) + x % y && 0 <= x % y < y
  {
  }

  /** The product of the divisor and the truncated quotient has the
      magnitude of the Euclidean one and the sign of the dividend. */
  lemma DivisorTimesQuotient(a: int, b: int)
    requires b != 0
    ensures b * TDiv(a, b) == (if a < 0 then -(Abs(b) * (Abs(a) / Abs(b))) else Abs(b) * (Abs(a) / Abs(b)))
  {
    var q := Abs(a) / Abs(b);
    if b > 0 {
      assert Abs(b) == b;
    } else {
      assert Abs(b) == -b;
      assert b * q == -(Abs(b) * q);
      assert b * (-q) == Abs(b) * q;
    }
  }

  /** Truncating division rounds toward zero and its remainder takes the sign
      of the dividend: the two differ from Dafny's Euclidean operators exactly
      when the dividend is negative. */
  lemma {:induction false} TruncatingDivision(a: int, b: int)
    requires b != 0
    ensures a == b * TDiv(a, b) + TMod(a, b)
    ensures TMod(a, b) == (if a < 0 then -(Abs(a) % Abs(b)) else Abs(a) % Abs(b))
    ensures Abs(TMod(a, b)) < Abs(b)
  {
    NatDivMod(Abs(a), Abs(b));
    DivisorTimesQuotient(a, b);
  }

  function Pow2(n: nat): (r: nat)
    ensures r >= 1
  {
    if n == 0 then 1 else 2 * Pow2(n - 1)
  }

  function Min(a: int, b: int): int
  {
    if a < b then a else b
  }

  /** 16-bit left shift of a signed value (opcode 0x3C): the int result of
      `value << count` truncated to 16 bits. Every count of 16 or more leaves
      no bit in the low 16. */
  function Shl16(value: u16, count: u16): u16
  {
    if count >= 16 then 0 else Wrap16(S16(value) * Pow2(count))
  }

  /** Arithmetic right shift of a signed value by n places: n halvings, each
      rounding toward minus infinity. */
  function ShiftRight(v: int, n: nat): int
    decreases n
  {
    if n == 0 then v else ShiftRight(v / 2, n - 1)
  }

  /** 16-bit arithmetic right shift (opcode 0x3D); from 15 on every count
      gives 0 or -1. */
  function Sar16(value: u16, count: u16): u16
  {
    SarBounds(S16(value), Min(count, 15));
    Wrap16(ShiftRight(S16(value), Min(count, 15)))
  }

  /** A left shift that does not overflow is a multiplication. */
  lemma ShlIsMultiplication(value: u16, count: u16)
    requires count < 16 && S16(value) >= 0 && S16(value) * Pow2(count) < 0x8000
    ensures S16(Shl16(value, count)) == S16(value) * Pow2(count)
  {
    SignedOfWrap16(S16(value) * Pow2(count));
  }

  /** Shifting right moves toward zero (or to -1) and keeps the sign. */
  lemma {:induction false} SarBounds(v: int, n: nat)
    ensures v >= 0 ==> 0 <= ShiftRight(v, n) <= v
    ensures v < 0 ==> v <= ShiftRight(v, n) < 0
    decreases n
  {
    if n > 0 {
      SarBounds(v / 2, n - 1);
    }
  }

  /** An arithmetic right shift keeps the sign of its operand. */
  lemma SarKeepsSign(value: u16, count: u16)
    ensures (S16(Sar16(value, count)) < 0) == (S16(value) < 0)
  {
    SarBounds(S16(value), Min(count, 15));
    SignedOfWrap16(ShiftRight(S16(value), Min(count, 15)));
  }

  /** Bitwise and of the low n bits, bit by bit from the least significant. */
  function BitAnd(a: nat, b: nat, n: nat): (r: nat)
    ensures r < Pow2(n)
  {
    if n == 0 then 0 else (a % 2) * (b % 2) + 2 * BitAnd(a / 2, b / 2, n - 1)
  }

  /** Bitwise or of the low n bits. */
  function BitOr(a: nat, b: nat, n: nat): (r: nat)
    ensures r < Pow2(n)
  {
    if n == 0 then 0
    else (if a % 2 == 1 || b % 2 == 1 then 1 else 0) + 2 * BitOr(a / 2, b / 2, n - 1)
  }

  lemma Pow16()
    ensures Pow2(16) == 0x10000
  {
    assert Pow2(8) == 0x100;
  }

  function And16(a: u16, b: u16): u16
  {
    Pow16();
    BitAnd(a, b, 16)
  }

  function Or16(a: u16, b: u16): u16
  {
    Pow16();
    BitOr(a, b, 16)
  }

  /** Bitwise complement of a 16-bit word (`~` then truncation). */
  function Not16(a: u16): u16
  {
    0xFFFF - a
  }
}
