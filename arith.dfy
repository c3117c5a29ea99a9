/** The arithmetic, comparison and logical opcodes (0x14-0x15, 0x1C-0x25,
    0x28-0x37, 0x39-0x3D, 0x60, 0x61). Every binary opcode pops a first and
    b second, so the left operand is b: `sub` computes b - a. Values are
    taken as signed where the source casts to int16/int32 and the result is
    truncated back to 16 or 32 bits. */
module Arith {
  import opened Words
  import opened Wrappers
  import opened Globals
  import opened State

  /** x and y agree modulo 2^16 (are the same 16-bit word). */
  predicate Same16(x: int, y: int)
  {
    (x - y) % 0x10000 == 0
  }

  predicate Same32(x: int, y: int)
  {
    (x - y) % 0x1_0000_0000 == 0
  }

  lemma Wrap16Same(i: int)
    ensures Same16(S16(Wrap16(i)), i)
  {
  }

  lemma Wrap32Same(i: int)
    ensures Same32(S32(Wrap32(i)), i)
  {
  }

  function Add16(b: u16, a: u16): u16
  {
    Wrap16(S16(b) + S16(a))
  }

  function Sub16(b: u16, a: u16): u16
  {
    Wrap16(S16(b) - S16(a))
  }

  function Mul16(b: u16, a: u16): u16
  {
    Wrap16(S16(b) * S16(a))
  }

  /** The 16-bit add, sub and mul give the signed result of b op a, wrapped
      to 16 bits. */
  lemma Arithmetic16(b: u16, a: u16)
    ensures Same16(S16(Add16(b, a)), S16(b) + S16(a))
    ensures Same16(S16(Sub16(b, a)), S16(b) - S16(a))
    ensures Same16(S16(Mul16(b, a)), S16(b) * S16(a))
  {
    Wrap16Same(S16(b) + S16(a));
    Wrap16Same(S16(b) - S16(a));
    Wrap16Same(S16(b) * S16(a));
  }

  /** b / a with C's truncating division; a zero divisor gives 0. */
  function Div16(b: u16, a: u16): (r: u16)
    ensures a == 0 ==> r == 0
    ensures a != 0 ==> Same16(S16(r), TDiv(S16(b), S16(a)))
  {
    if a == 0 then 0
    else
      Wrap16Same(TDiv(S16(b), S16(a)));
      Wrap16(TDiv(S16(b), S16(a)))
  }

  /** b % a with C's remainder (the sign of b); a zero divisor gives 0. */
  function Mod16(b: u16, a: u16): (r: u16)
    ensures a == 0 ==> r == 0
    ensures a != 0 ==> S16(r) == TMod(S16(b), S16(a))
  {
    if a == 0 then 0
    else
      TruncatingDivision(S16(b), S16(a));
      SignedOfWrap16(TMod(S16(b), S16(a)));
      Wrap16(TMod(S16(b), S16(a)))
  }

  function Add32(b: u32, a: u32): u32
  {
    Wrap32(S32(b) + S32(a))
  }

  function Sub32(b: u32, a: u32): u32
  {
    Wrap32(S32(b) - S32(a))
  }

  function Mul32(b: u32, a: u32): u32
  {
    Wrap32(S32(b) * S32(a))
  }

  /** The 32-bit add, sub and mul give the signed result of b op a,
      wrapped to 32 bits. */
  lemma Arithmetic32(b: u32, a: u32)
    ensures Same32(S32(Add32(b, a)), S32(b) + S32(a))
    ensures Same32(S32(Sub32(b, a)), S32(b) - S32(a))
    ensures Same32(S32(Mul32(b, a)), S32(b) * S32(a))
  {
    Wrap32Same(S32(b) + S32(a));
    Wrap32Same(S32(b) - S32(a));
    Wrap32Same(S32(b) * S32(a));
  }

  /** The one 32-bit division whose quotient does not fit: INT32_MIN / -1. */
  predicate Overflows32(b: u32, a: u32)
  {
    S32(b) == -0x8000_0000 && S32(a) == -1
  }

  /** 32-bit b / a as the source evaluates it: a zero divisor gives 0, and
      INT32_MIN / -1 is undefined behaviour in C++ (a trap on x86), shown
      here as `None`. */
  function Div32AsWritten(b: u32, a: u32): (r: Option<u32>)
    ensures r.None? <==> Overflows32(b, a)
  {
    if a == 0 then Some(0)
    else if Overflows32(b, a) then None
    else Some(Wrap32(TDiv(S32(b), S32(a))))
  }

  function Mod32AsWritten(b: u32, a: u32): (r: Option<u32>)
    ensures r.None? <==> Overflows32(b, a)
  {
    if a == 0 then Some(0)
    else if Overflows32(b, a) then None
    else Some(Wrap32(TMod(S32(b), S32(a))))
  }

  /** 32-bit b / a as evidently intended: every quotient wraps to 32 bits,
      so INT32_MIN / -1 is INT32_MIN, as in the 16-bit opcode. */
  function Div32(b: u32, a: u32): (r: u32)
    ensures a == 0 ==> r == 0
    ensures a != 0 ==> Same32(S32(r), TDiv(S32(b), S32(a)))
    ensures a != 0 && !Overflows32(b, a) ==> Div32AsWritten(b, a) == Some(r)
  {
    if a == 0 then 0
    else
      Wrap32Same(TDiv(S32(b), S32(a)));
      Wrap32(TDiv(S32(b), S32(a)))
  }

  /** 32-bit b % a as evidently intended: INT32_MIN % -1 is 0. */
  function Mod32(b: u32, a: u32): (r: u32)
    ensures a == 0 ==> r == 0
    ensures a != 0 ==> S32(r) == TMod(S32(b), S32(a))
    ensures a != 0 && !Overflows32(b, a) ==> Mod32AsWritten(b, a) == Some(r)
  {
    if a == 0 then 0
    else
      TruncatingDivision(S32(b), S32(a));
      SignedOfWrap32(TMod(S32(b), S32(a)));
      Wrap32(TMod(S32(b), S32(a)))
  }

  /** The 32-bit opcodes' own results for the overflowing division, as
      written and as corrected. */
  lemma DivisionOverflow()
    ensures Div32AsWritten(0x8000_0000, 0xFFFF_FFFF).None?
    ensures Mod32AsWritten(0x8000_0000, 0xFFFF_FFFF).None?
    ensures Div32(0x8000_0000, 0xFFFF_FFFF) == 0x8000_0000
    ensures Mod32(0x8000_0000, 0xFFFF_FFFF) == 0
  {
    assert TDiv(-0x8000_0000, -1) == 0x8000_0000;
  }

  /** The 16-bit opcode already wraps: -32768 / -1 is -32768. */
  lemma Division16Wraps()
    ensures Div16(0x8000, 0xFFFF) == 0x8000 && Mod16(0x8000, 0xFFFF) == 0
  {
    assert TDiv(-0x8000, -1) == 0x8000;
  }

  /** Opcodes that pop two 16-bit words and push one. */
  predicate IsBinary16(op: u8)
  {
    op == 0x14 || op == 0x1C || op == 0x1E || op == 0x20 || op == 0x22 || op == 0x39 || op == 0x3A
    || op == 0x3C || op == 0x3D
  }

  /** Opcodes that pop two 32-bit words and push one. */
  predicate IsBinary32(op: u8)
  {
    op == 0x15 || op == 0x1D || op == 0x1F || op == 0x21 || op == 0x23 || op == 0x33 || op == 0x35
  }

  /** Comparisons and logical opcodes on 16-bit words: push a 16-bit 0/1. */
  predicate IsCompare16(op: u8)
  {
    op == 0x24 || op == 0x28 || op == 0x2A || op == 0x2C || op == 0x2E || op == 0x32 || op == 0x34
    || op == 0x36
  }

  /** Comparisons on 32-bit words: they too push a 16-bit 0/1. */
  predicate IsCompare32(op: u8)
  {
    op == 0x25 || op == 0x29 || op == 0x2B || op == 0x2D || op == 0x2F || op == 0x37
  }

  predicate IsArith(op: u8)
  {
    IsBinary16(op) || IsBinary32(op) || IsCompare16(op) || IsCompare32(op)
    || op == 0x30 || op == 0x31 || op == 0x3B || op == 0x60 || op == 0x61
  }

  /** The result of a binary 16-bit opcode on a (popped first) and b. The
      shifts take their operands in the opposite order in the Crusader
      games: in Ultima 8 a is the value and b the count. */
  function Binary16(variant: Variant, op: u8, a: u16, b: u16): u16
    requires IsBinary16(op)
  {
    match op
    case 0x14 => Add16(b, a)
    case 0x1C => Sub16(b, a)
    case 0x1E => Mul16(b, a)
    case 0x20 => Div16(b, a)
    case 0x22 => Mod16(b, a)
    case 0x39 => And16(a, b)
    case 0x3A => Or16(a, b)
    case 0x3C => if variant == U8 then Shl16(a, b) else Shl16(b, a)
    case 0x3D => if variant == U8 then Sar16(a, b) else Sar16(b, a)
  }

  /** The result of a binary 32-bit opcode; the 32-bit logical and/or push a
      32-bit 0/1. */
  function Binary32(op: u8, a: u32, b: u32): u32
    requires IsBinary32(op)
  {
    match op
    case 0x15 => Add32(b, a)
    case 0x1D => Sub32(b, a)
    case 0x1F => Mul32(b, a)
    case 0x21 => Div32(b, a)
    case 0x23 => Mod32(b, a)
    case 0x33 => if a != 0 && b != 0 then 1 else 0
    case 0x35 => if a != 0 || b != 0 then 1 else 0
  }

  /** The truth value a 16-bit comparison or logical opcode pushes: b is the
      left operand. */
  predicate Compare16(op: u8, a: u16, b: u16)
    requires IsCompare16(op)
  {
    match op
    case 0x24 => S16(a) == S16(b)
    case 0x28 => S16(b) < S16(a)
    case 0x2A => S16(b) <= S16(a)
    case 0x2C => S16(b) > S16(a)
    case 0x2E => S16(b) >= S16(a)
    case 0x32 => a != 0 && b != 0
    case 0x34 => a != 0 || b != 0
    case 0x36 => S16(a) != S16(b)
  }

  predicate Compare32(op: u8, a: u32, b: u32)
    requires IsCompare32(op)
  {
    match op
    case 0x25 => S32(a) == S32(b)
    case 0x29 => S32(b) < S32(a)
    case 0x2B => S32(b) <= S32(a)
    case 0x2D => S32(b) > S32(a)
    case 0x2F => S32(b) >= S32(a)
    case 0x37 => S32(a) != S32(b)
  }

  /** A binary 16-bit opcode: pop a, pop b, push the result. */
  function ExecBinary16(variant: Variant, s: Slice, op: u8): (r: Option<Slice>)
    requires IsBinary16(op)
    ensures r.Some? ==> r.value == WithStack(s, r.value.p.stack)
  {
    var (a, s1) :- Pop2(s);
    var (b, s2) :- Pop2(s1);
    Push2(s2, Binary16(variant, op, a, b))
  }

  function ExecBinary32(s: Slice, op: u8): (r: Option<Slice>)
    requires IsBinary32(op)
    ensures r.Some? ==> r.value == WithStack(s, r.value.p.stack)
  {
    var (a, s1) :- Pop4(s);
    var (b, s2) :- Pop4(s1);
    Push4(s2, Binary32(op, a, b))
  }

  function ExecCompare16(s: Slice, op: u8): (r: Option<Slice>)
    requires IsCompare16(op)
    ensures r.Some? ==> r.value == WithStack(s, r.value.p.stack)
  {
    var (a, s1) :- Pop2(s);
    var (b, s2) :- Pop2(s1);
    PushBool(s2, Compare16(op, a, b))
  }

  function ExecCompare32(s: Slice, op: u8): (r: Option<Slice>)
    requires IsCompare32(op)
    ensures r.Some? ==> r.value == WithStack(s, r.value.p.stack)
  {
    var (a, s1) :- Pop4(s);
    var (b, s2) :- Pop4(s1);
    PushBool(s2, Compare32(op, a, b))
  }

  /** Logical not: 0x30 pops a 16-bit word, 0x31 a 32-bit one, and both
      push a 16-bit 0/1. */
  function ExecNot(s: Slice, op: u8): (r: Option<Slice>)
    requires op == 0x30 || op == 0x31
    ensures r.Some? ==> r.value == WithStack(s, r.value.p.stack)
  {
    if op == 0x30 then
      var (a, s1) :- Pop2(s);
      PushBool(s1, a == 0)
    else
      var (a, s1) :- Pop4(s);
      PushBool(s1, a == 0)
  }

  /** One arithmetic, comparison or logical opcode on the process stack; a
      stack access out of range is a fault. */
  function ExecArith(variant: Variant, s: Slice, op: u8): (r: Option<Slice>)
    requires IsArith(op)
    ensures r.Some? ==> r.value == WithStack(s, r.value.p.stack)
  {
    if IsBinary16(op) then ExecBinary16(variant, s, op)
    else if IsBinary32(op) then ExecBinary32(s, op)
    else if IsCompare16(op) then ExecCompare16(s, op)
    else if IsCompare32(op) then ExecCompare32(s, op)
    else if op == 0x30 || op == 0x31 then ExecNot(s, op)
    else if op == 0x3B then
      var (a, s1) :- Pop2(s);
      Push2(s1, Not16(a))
    else if op == 0x60 then
      var (a, s1) :- Pop2(s);
      Push4(s1, SignExtend16(a))
    else
      var (a, s1) :- Pop4(s);
      Push2(s1, a % 0x10000)
  }

  /** A binary 16-bit opcode with a on top of the stack and b under it
      replaces the two words by one, the result of b op a, and changes
      nothing but the stack. */
  lemma Binary16Pushes(variant: Variant, s: Slice, op: u8, a: u16, b: u16)
    requires IsBinary16(op) && Read2(s, SP(s)) == Some(a) && Read2(s, SP(s) + 2) == Some(b)
    ensures ExecBinary16(variant, s, op).Some?
    ensures var t := ExecBinary16(variant, s, op).value;
      t == WithStack(s, t.p.stack) && SP(t) == SP(s) + 2 && Read2(t, SP(t)) == Some(Binary16(variant, op, a, b))
  {
    PopTwo2(s, a, b);
    var v := Binary16(variant, op, a, b);
    assert ExecBinary16(variant, s, op) == Push2(MoveSP(s, 4), v);
    Push2Reads(MoveSP(s, 4), v);
  }

  /** The same for the binary 32-bit opcodes: two 32-bit words become one. */
  lemma Binary32Pushes(s: Slice, op: u8, a: u32, b: u32)
    requires IsBinary32(op) && Read4(s, SP(s)) == Some(a) && Read4(s, SP(s) + 4) == Some(b)
    ensures ExecBinary32(s, op).Some?
    ensures var t := ExecBinary32(s, op).value;
      t == WithStack(s, t.p.stack) && SP(t) == SP(s) + 4 && Read4(t, SP(t)) == Some(Binary32(op, a, b))
  {
    PopTwo4(s, a, b);
    var v := Binary32(op, a, b);
    assert ExecBinary32(s, op) == Push4(MoveSP(s, 8), v);
    Push4Reads(MoveSP(s, 8), v);
  }

  /** sub, div and mod (0x1C, 0x20, 0x22): the value popped first is the
      right operand, so the word left on the stack is b - a, b / a or
      b % a with C's truncating division, and a zero divisor gives 0. */
  lemma SubDivMod16(variant: Variant, s: Slice, op: u8, a: u16, b: u16)
    requires op == 0x1C || op == 0x20 || op == 0x22
    requires Read2(s, SP(s)) == Some(a) && Read2(s, SP(s) + 2) == Some(b)
    ensures ExecBinary16(variant, s, op).Some?
    ensures var t := ExecBinary16(variant, s, op).value;
      t == WithStack(s, t.p.stack) && SP(t) == SP(s) + 2 && Read2(t, SP(t)).Some?
      && (op == 0x1C ==> Same16(S16(Read2(t, SP(t)).value), S16(b) - S16(a)))
      && (op != 0x1C && a == 0 ==> Read2(t, SP(t)) == Some(0))
      && (op == 0x20 && a != 0 ==> Same16(S16(Read2(t, SP(t)).value), TDiv(S16(b), S16(a))))
      && (op == 0x22 && a != 0 ==> S16(Read2(t, SP(t)).value) == TMod(S16(b), S16(a)))
  {
    Binary16Pushes(variant, s, op, a, b);
    Arithmetic16(b, a);
  }

  /** The 32-bit sub, div and mod (0x1D, 0x21, 0x23), with the one
      overflowing quotient wrapping. */
  lemma SubDivMod32(s: Slice, op: u8, a: u32, b: u32)
    requires op == 0x1D || op == 0x21 || op == 0x23
    requires Read4(s, SP(s)) == Some(a) && Read4(s, SP(s) + 4) == Some(b)
    ensures ExecBinary32(s, op).Some?
    ensures var t := ExecBinary32(s, op).value;
      t == WithStack(s, t.p.stack) && SP(t) == SP(s) + 4 && Read4(t, SP(t)).Some?
      && (op == 0x1D ==> Same32(S32(Read4(t, SP(t)).value), S32(b) - S32(a)))
      && (op != 0x1D && a == 0 ==> Read4(t, SP(t)) == Some(0))
      && (op == 0x21 && a != 0 ==> Same32(S32(Read4(t, SP(t)).value), TDiv(S32(b), S32(a))))
      && (op == 0x23 && a != 0 ==> S32(Read4(t, SP(t)).value) == TMod(S32(b), S32(a)))
  {
    Binary32Pushes(s, op, a, b);
    Arithmetic32(b, a);
  }

  /** Every 16-bit comparison and logical opcode replaces its two operands
      by one 16-bit word, 1 when the relation holds and 0 when it does not. */
  lemma Compare16Pushes(s: Slice, op: u8, a: u16, b: u16)
    requires IsCompare16(op) && Read2(s, SP(s)) == Some(a) && Read2(s, SP(s) + 2) == Some(b)
    ensures ExecCompare16(s, op).Some?
    ensures var t := ExecCompare16(s, op).value;
      t == WithStack(s, t.p.stack) && SP(t) == SP(s) + 2
      && Read2(t, SP(t)) == Some(if Compare16(op, a, b) then 1 else 0)
  {
    PopTwo2(s, a, b);
    var v := if Compare16(op, a, b) then 1 else 0;
    assert ExecCompare16(s, op) == Push2(MoveSP(s, 4), v);
    Push2Reads(MoveSP(s, 4), v);
  }

  /** The 32-bit comparisons pop two 32-bit words and also push a single
      16-bit 0 or 1. */
  lemma Compare32Pushes(s: Slice, op: u8, a: u32, b: u32)
    requires IsCompare32(op) && Read4(s, SP(s)) == Some(a) && Read4(s, SP(s) + 4) == Some(b)
    ensures ExecCompare32(s, op).Some?
    ensures var t := ExecCompare32(s, op).value;
      t == WithStack(s, t.p.stack) && SP(t) == SP(s) + 6
      && Read2(t, SP(t)) == Some(if Compare32(op, a, b) then 1 else 0)
  {
    PopTwo4(s, a, b);
    var v := if Compare32(op, a, b) then 1 else 0;
    assert ExecCompare32(s, op) == Push2(MoveSP(s, 8), v);
    Push2Reads(MoveSP(s, 8), v);
  }

  /** Logical not (0x30 on a 16-bit word, 0x31 on a 32-bit one) leaves one
      16-bit word: 1 for a zero operand, 0 otherwise. */
  lemma NotPushes(s: Slice, op: u8, a: u32)
    requires op == 0x30 || op == 0x31
    requires op == 0x30 ==> a < 0x10000 && Read2(s, SP(s)) == Some(a)
    requires op == 0x31 ==> Read4(s, SP(s)) == Some(a)
    ensures ExecNot(s, op).Some?
    ensures var t := ExecNot(s, op).value;
      t == WithStack(s, t.p.stack) && SP(t) == SP(s) + (if op == 0x30 then 0 else 2)
      && Read2(t, SP(t)) == Some(if a == 0 then 1 else 0)
  {
    var v := if a == 0 then 1 else 0;
    if op == 0x30 {
      Pop2Reads(s, a);
      assert ExecNot(s, op) == Push2(MoveSP(s, 2), v);
      Push2Reads(MoveSP(s, 2), v);
    } else {
      Pop4Reads(s, a);
      assert ExecNot(s, op) == Push2(MoveSP(s, 4), v);
      Push2Reads(MoveSP(s, 4), v);
    }
  }
}
