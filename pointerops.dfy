/** The opcodes that build segmented pointers and read or write through
    them, and the direct global-variable push and pop. */
module PointerOps {
  import opened Words
  import opened Wrappers
  import opened Pointers
  import opened Globals
  import Stacks
  import opened State
  import opened Resolver
  import opened Opcodes

  /** What a pointer opcode leaves alone: the heaps, the code position, the
      instruction and base pointers and the process id. */
  predicate PointerStep(s: Slice, t: Slice)
  {
    t.h == s.h && t.code == s.code && t.pos == s.pos
    && t.p.ip == s.p.ip && t.p.bp == s.p.bp && t.p.pid == s.p.pid
  }

  predicate IsPointerOp(op: u8)
  {
    op == 0x4B || op == 0x4C || op == 0x4D || op == 0x4E || op == 0x4F || op == 0x69 || op == 0x6B
    || op == 0x6F || op == 0x79
  }

  /** The mask the 0x4F assertion applies: the value cut to the width of n
      entries. */
  function Masked(g: GlobalStore, n: nat, v: u32): nat
  {
    v % Pow2(n * g.unit)
  }

  /** 0x4C xx: pop a pointer, reserve xx bytes and fill them from where it
      points; a refused pointer is an error. */
  function PushIndirect(s: Slice, size: u8): (r: Option<Slice>)
    ensures r.Some? ==> PointerStep(s, r.value) && r.value.g == s.g && r.value.k == s.k
  {
    var (ptr, s1) :- Pop4(s);
    var s2 := MoveSP(s1, -(size as int));
    var d :- Dereference(s2, ptr, size);
    match d
    case Refused => Some(Fail(s2))
    case Bytes(data) => Write(s2, SP(s2), data)
    case Untouched => Some(s2)
  }

  /** 0x4D xx: pop a pointer and store the xx bytes on top of the stack
      where it points, then pop them; a refused pointer is an error and
      leaves them. */
  function PopIndirect(s: Slice, size: u8): (r: Option<Slice>)
    ensures r.Some? ==> PointerStep(s, r.value)
  {
    var (ptr, s1) :- Pop4(s);
    var data :- Read(s1, SP(s1), size);
    var (ok, s2) :- AssignPointer(s1, ptr, data);
    if ok then Some(MoveSP(s2, size)) else Some(Fail(s2))
  }

  /** 0x4F xxxx yy: pop a value into global xxxx of width yy, then check
      (the source's assertion) that it reads back masked to that width. */
  function PopGlobal(s: Slice, pos: u16, n: u8): (r: Option<Slice>)
    ensures r.Some? ==> PointerStep(s, r.value) && r.value.k == s.k
  {
    var (v, s1) :- Pop2(s);
    var g1 :- SetEntries(s1.g, pos, n, v);
    if GetEntries(g1, pos, n) != Some(Masked(s1.g, n, v)) then None
    else Some(s1.(g := g1))
  }

  /** One pointer or global opcode, with its operand bytes. */
  function ExecPointer(s: Slice, op: u8, arg: seq<u8>): (r: Option<Slice>)
    requires IsPointerOp(op) && |arg| == Operands(op)
    ensures r.Some? ==> PointerStep(s, r.value)
  {
    match op
    // push the address of bp+xx
    case 0x4B => Push4(s, StackToPtr(s.p.pid, Wrap16(Local(s, S8(arg[0])))))
    case 0x4C => PushIndirect(s, arg[0])
    case 0x4D => PopIndirect(s, arg[0])
    // push global xxxx of width yy as a 16-bit value
    case 0x4E =>
      var v :- GetEntries(s.g, FromLE16(arg[..2]), arg[2]);
      Push2(s, v % 0x10000)
    case 0x4F => PopGlobal(s, FromLE16(arg[..2]), arg[2])
    // the string in bp+xx, or the popped string, as a pointer
    case 0x69 =>
      var str :- Read2(s, Local(s, S8(arg[0])));
      Push4(s, StringToPtr(str))
    case 0x6B =>
      var (str, s1) :- Pop2(s);
      Push4(s1, StringToPtr(str))
    // push the address of sp-xx
    case 0x6F => Push4(s, StackToPtr(s.p.pid, Wrap16(SP(s) - S8(arg[0]))))
    // push the address of global xxxx
    case 0x79 => Push4(s, GlobalToPtr(FromLE16(arg[..2])))
  }

  /** The assertion in 0x4F never fails: a value popped into a global that
      the store holds reads back masked to the global's width. */
  lemma PopGlobalAssertHolds(s: Slice, pos: u16, n: u8)
    requires Stacks.InBuffer(s.p.stack, SP(s), 2) && InRange(s.g, pos, n)
    ensures PopGlobal(s, pos, n).Some?
  {
    var (v, s1) := Pop2(s).value;
    assert s1.g == s.g;
    GetAfterSet(s1.g, pos, n, v);
  }
}
