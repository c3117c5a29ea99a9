/** The process-wide global store: a packed table of 0x1000 entries addressed
    by (position, width). Ultima 8 packs it as single bits (a bit set),
    Crusader as bytes (a byte set); either way an entry is `unit` bits and a
    value is read and written least significant bit first. */
module Globals {
  import opened Words
  import opened Wrappers

  /** The game the machine runs, which decides the store's packing, the
      avatar seed and the operand order of the shift opcodes. */
  datatype Variant = U8 | Remorse | Regret

  predicate IsCrusader(v: Variant)
  {
    v != U8
  }

  const CAPACITY: nat := 0x1000

  datatype GlobalStore = GlobalStore(bits: seq<bool>, unit: nat)

  /** The n bits from position pos as a number, the first bit least
      significant. */
  function GetBits(bits: seq<bool>, pos: nat, n: nat): (r: nat)
    requires pos + n <= |bits|
    ensures r < Pow2(n)
    decreases n
  {
    if n == 0 then 0
    else (if bits[pos] then 1 else 0) + 2 * GetBits(bits, pos + 1, n - 1)
  }

  /** Write the low n bits of v from position pos; no other bit changes. */
  function SetBits(bits: seq<bool>, pos: nat, n: nat, v: nat): (r: seq<bool>)
    requires pos + n <= |bits|
    ensures |r| == |bits|
    ensures forall i :: 0 <= i < |bits| && !(pos <= i < pos + n) ==> r[i] == bits[i]
    decreases n
  {
    if n == 0 then bits
    else SetBits(bits[pos := v % 2 == 1], pos + 1, n - 1, v / 2)
  }

  /** The low n bits of v, one at a time. */
  function LowBits(v: nat, n: nat): nat
  {
    if n == 0 then 0 else v % 2 + 2 * LowBits(v / 2, n - 1)
  }

  /** Reading n bits depends on those n bits only. */
  lemma {:induction false} GetBitsFrame(b1: seq<bool>, b2: seq<bool>, pos: nat, n: nat)
    requires pos + n <= |b1| && pos + n <= |b2|
    requires forall i :: pos <= i < pos + n ==> b1[i] == b2[i]
    ensures GetBits(b1, pos, n) == GetBits(b2, pos, n)
    decreases n
  {
    if n > 0 {
      GetBitsFrame(b1, b2, pos + 1, n - 1);
    }
  }

  /** Reading back what was written gives the written value's low n bits. */
  lemma {:induction false} GetSetBits(bits: seq<bool>, pos: nat, n: nat, v: nat)
    requires pos + n <= |bits|
    ensures GetBits(SetBits(bits, pos, n, v), pos, n) == LowBits(v, n)
    decreases n
  {
    if n > 0 {
      var b1 := bits[pos := v % 2 == 1];
      var r := SetBits(b1, pos + 1, n - 1, v / 2);
      GetSetBits(b1, pos + 1, n - 1, v / 2);
      assert r[pos] == (v % 2 == 1);
    }
  }

  /** Division with remainder is unique. */
  lemma ModUnique(v: nat, d: nat, k: nat, m: nat)
    requires d > 0 && v == d * k + m && m < d
    ensures v % d == m && v / d == k
  {
    var q, r := v / d, v % d;
    assert v == d * q + r && 0 <= r < d;
    if q > k {
      MulStep(d, k, q);
    } else if q < k {
      MulStep(d, q, k);
    }
  }

  /** A larger multiple is at least one d larger. */
  lemma MulStep(d: nat, a: nat, b: nat)
    requires a < b
    ensures d * a + d <= d * b
  {
    MulLeft(d, a + 1, b);
    assert d * (a + 1) == d * a + d;
  }

  lemma MulLeft(d: nat, a: nat, b: nat)
    requires a <= b
    ensures d * a <= d * b && a * d <= b * d
  {
    assert d * b == d * a + d * (b - a);
  }

  /** The low n bits are the remainder modulo 2^n (the source's mask
      `v & ((1 << n) - 1)`). */
  lemma {:induction false} LowBitsIsMod(v: nat, n: nat)
    ensures LowBits(v, n) == v % Pow2(n)
    decreases n
  {
    if n > 0 {
      LowBitsIsMod(v / 2, n - 1);
      var p := Pow2(n - 1);
      var k, m := (v / 2) / p, (v / 2) % p;
      Regroup(v, p, k, m);
      ModUnique(v, 2 * p, k, v % 2 + 2 * m);
    }
  }

  /** Halving v and dividing the half by p is dividing v by 2p. */
  lemma Regroup(v: nat, p: nat, k: nat, m: nat)
    requires v / 2 == p * k + m
    ensures v == (2 * p) * k + (v % 2 + 2 * m)
  {
    var pk := p * k;
    assert v == 2 * pk + 2 * m + v % 2;
    assert (2 * p) * k == 2 * pk;
  }

  lemma {:induction false} Pow2Monotone(a: nat, b: nat)
    requires a <= b
    ensures Pow2(a) <= Pow2(b)
    decreases b
  {
    if a < b {
      Pow2Monotone(a, b - 1);
    }
  }

  /** The 32-bit words fit 32 bits. */
  lemma Pow32()
    ensures Pow2(32) == 0x1_0000_0000
  {
    Pow16();
    assert Pow2(32) == Pow2(16) * Pow2(16) by { Pow2Add(16, 16); }
  }

  lemma {:induction false} Pow2Add(a: nat, b: nat)
    ensures Pow2(a + b) == Pow2(a) * Pow2(b)
    decreases a
  {
    if a > 0 {
      Pow2Add(a - 1, b);
    }
  }

  /** An access of n entries from pos lies inside the store and is at most
      32 bits wide. */
  predicate InRange(g: GlobalStore, pos: nat, n: nat)
  {
    n * g.unit <= 32 && pos * g.unit + n * g.unit <= |g.bits|
  }

  /** getEntries; an access the store would refuse (its assertions) is a
      fault. */
  function GetEntries(g: GlobalStore, pos: nat, n: nat): (r: Option<u32>)
    ensures r.Some? <==> InRange(g, pos, n)
  {
    if !InRange(g, pos, n) then None
    else
      var v := GetBits(g.bits, pos * g.unit, n * g.unit);
      Pow2Monotone(n * g.unit, 32);
      Pow32();
      Some(v)
  }

  /** setEntries: the low n entries' worth of v are stored. */
  function SetEntries(g: GlobalStore, pos: nat, n: nat, v: u32): (r: Option<GlobalStore>)
    ensures r.Some? <==> InRange(g, pos, n)
    ensures r.Some? ==> r.value.unit == g.unit && |r.value.bits| == |g.bits|
  {
    if !InRange(g, pos, n) then None
    else Some(g.(bits := SetBits(g.bits, pos * g.unit, n * g.unit, v)))
  }

  /** Writing then reading the same entries gives the value masked to the
      width written. */
  lemma GetAfterSet(g: GlobalStore, pos: nat, n: nat, v: u32)
    requires InRange(g, pos, n)
    ensures GetEntries(SetEntries(g, pos, n, v).value, pos, n) == Some(v % Pow2(n * g.unit))
  {
    GetSetBits(g.bits, pos * g.unit, n * g.unit, v);
    LowBitsIsMod(v, n * g.unit);
  }

  /** A two-byte entry of a byte-packed store holds any 16-bit value. */
  lemma GetAfterSetWord(g: GlobalStore, pos: nat, v: u16)
    requires g.unit == 8 && InRange(g, pos, 2)
    ensures GetEntries(SetEntries(g, pos, 2, v).value, pos, 2) == Some(v)
  {
    GetAfterSet(g, pos, 2, v);
    Pow16();
    ModSmall(v, Pow2(2 * g.unit));
  }

  lemma ModSmall(v: nat, m: nat)
    requires v < m
    ensures v % m == v
  {
  }

  /** Two disjoint runs of entries cover disjoint runs of bits. */
  lemma ScaledApart(pos: nat, n: nat, pos2: nat, n2: nat, u: nat)
    requires pos2 + n2 <= pos || pos + n <= pos2
    ensures pos2 * u + n2 * u <= pos * u || pos * u + n * u <= pos2 * u
  {
    if pos2 + n2 <= pos {
      MulLeft(u, pos2 + n2, pos);
      assert (pos2 + n2) * u == pos2 * u + n2 * u;
    } else {
      MulLeft(u, pos + n, pos2);
      assert (pos + n) * u == pos * u + n * u;
    }
  }

  /** Writing entries leaves every entry outside them as it was. */
  lemma SetLeavesOthers(g: GlobalStore, pos: nat, n: nat, v: u32, pos2: nat, n2: nat)
    requires InRange(g, pos, n) && InRange(g, pos2, n2)
    requires pos2 + n2 <= pos || pos + n <= pos2
    ensures GetEntries(SetEntries(g, pos, n, v).value, pos2, n2) == GetEntries(g, pos2, n2)
  {
    var u := g.unit;
    var a, na, b, nb := pos * u, n * u, pos2 * u, n2 * u;
    ScaledApart(pos, n, pos2, n2, u);
    var bits2 := SetBits(g.bits, a, na, v);
    assert SetEntries(g, pos, n, v).value.bits == bits2;
    GetBitsFrame(g.bits, bits2, b, nb);
  }

  /** A cleared store of the variant's packing. */
  function Cleared(variant: Variant): (g: GlobalStore)
    ensures g.unit == (if variant == U8 then 1 else 8)
    ensures |g.bits| == CAPACITY * g.unit
  {
    var unit := if variant == U8 then 1 else 8;
    GlobalStore(seq(CAPACITY * unit, i => false), unit)
  }

  /** The store as construction and reset leave it: cleared, and for the
      Crusader games the two-byte entry holding the avatar number set to 1
      (0x3C in No Remorse, 0x1E in No Regret). */
  function Initial(variant: Variant): (g: GlobalStore)
    ensures g.unit == (if variant == U8 then 1 else 8)
    ensures |g.bits| == CAPACITY * g.unit
  {
    var c := Cleared(variant);
    match variant
    case U8 => c
    case Remorse => SetEntries(c, 0x3C, 2, 1).value
    case Regret => SetEntries(c, 0x1E, 2, 1).value
  }

  /** After construction or reset the avatar entry reads 1 in the Crusader
      games. */
  lemma InitialAvatar(variant: Variant)
    ensures variant == Remorse ==> GetEntries(Initial(variant), 0x3C, 2) == Some(1)
    ensures variant == Regret ==> GetEntries(Initial(variant), 0x1E, 2) == Some(1)
  {
    Pow16();
    if variant != U8 {
      var c := Cleared(variant);
      var pos: nat := if variant == Remorse then 0x3C else 0x1E;
      assert c.unit == 8 && |c.bits| == 0x8000;
      assert InRange(c, pos, 2);
      GetAfterSet(c, pos, 2, 1);
      assert 1 % Pow2(2 * 8) == 1;
    }
  }

  /** Bits that are all clear read as 0. */
  lemma {:induction false} GetBitsZero(bits: seq<bool>, pos: nat, n: nat)
    requires pos + n <= |bits|
    requires forall i :: pos <= i < pos + n ==> !bits[i]
    ensures GetBits(bits, pos, n) == 0
    decreases n
  {
    if n > 0 {
      GetBitsZero(bits, pos + 1, n - 1);
    }
  }

  /** After construction or reset every global reads 0, except the avatar
      entry of the Crusader games. */
  lemma InitialClear(variant: Variant, pos: nat, n: nat)
    requires InRange(Initial(variant), pos, n)
    requires variant == Remorse ==> pos + n <= 0x3C || 0x3E <= pos
    requires variant == Regret ==> pos + n <= 0x1E || 0x20 <= pos
    ensures GetEntries(Initial(variant), pos, n) == Some(0)
  {
    var c := Cleared(variant);
    assert InRange(c, pos, n);
    GetBitsZero(c.bits, pos * c.unit, n * c.unit);
    if variant != U8 {
      var avatar: nat := if variant == Remorse then 0x3C else 0x1E;
      assert c.unit == 8 && |c.bits| == 0x8000 && InRange(c, avatar, 2);
      SetLeavesOthers(c, avatar, 2, 1, pos, n);
    }
  }
}
