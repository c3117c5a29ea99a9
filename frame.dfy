/** The opcodes that move values between the operand stack, the frame of
    local variables (bp-relative), the immediate operands and the process
    registers, and that adjust the stack pointer. */
module Frame {
  import opened Words
  import opened Wrappers
  import Stacks
  import opened State
  import opened Opcodes

  /** What a frame opcode leaves alone: everything outside the process, and
      the instruction pointer, base pointer and process id. */
  predicate FrameStep(s: Slice, t: Slice)
  {
    t.h == s.h && t.g == s.g && t.k == s.k && t.code == s.code && t.pos == s.pos
    && t.p.ip == s.p.ip && t.p.bp == s.p.bp && t.p.pid == s.p.pid
  }

  predicate IsFrameOp(op: u8)
  {
    op == 0x00 || op == 0x01 || op == 0x02 || op == 0x03 || op == 0x08 || op == 0x0A || op == 0x0B
    || op == 0x0C || op == 0x12 || op == 0x13 || op == 0x3E || op == 0x3F || op == 0x40
    || op == 0x45 || op == 0x59 || op == 0x5A || op == 0x5B || op == 0x5C || op == 0x5D
    || op == 0x5E || op == 0x5F || op == 0x6D || op == 0x6E || op == 0x74 || op == 0x77
  }

  /** The frame slot bp+xx named by a signed immediate byte. */
  function Slot(s: Slice, x: u8): int
  {
    Local(s, S8(x))
  }

  /** 0x5A xx: the local-variable size rounded up to an even count. */
  function InitSize(x: u8): (n: nat)
    ensures n % 2 == 0 && x <= n <= x + 1
  {
    if x % 2 == 1 then x + 1 else x
  }

  /** One frame opcode, with its operand bytes. A slot or stack access
      outside the stack buffer is a fault. */
  function ExecFrame(s: Slice, op: u8, arg: seq<u8>): (r: Option<Slice>)
    requires IsFrameOp(op) && |arg| == Operands(op)
    ensures r.Some? ==> FrameStep(s, r.value)
  {
    match op
    // pop a 16-bit value; store its low byte / the word / a 32-bit value /
    // yy bytes in bp+xx
    case 0x00 =>
      var (v, s1) :- Pop2(s);
      Write(s1, Slot(s1, arg[0]), [v % 0x100])
    case 0x01 =>
      var (v, s1) :- Pop2(s);
      Write2(s1, Slot(s1, arg[0]), v)
    case 0x02 =>
      var (v, s1) :- Pop4(s);
      Write(s1, Slot(s1, arg[0]), LE32(v))
    case 0x03 =>
      var (bytes, s1) :- PopN(s, arg[1]);
      Write(s1, Slot(s1, arg[0]), bytes)
    // pop 32 bits into the result register
    case 0x08 =>
      var (v, s1) :- Pop4(s);
      Some(s1.(p := s1.p.(result := v)))
    // push a sign-extended byte, a word, a double word
    case 0x0A => Push2(s, Wrap16(S8(arg[0])))
    case 0x0B => Push2(s, FromLE16(arg[..2]))
    case 0x0C => Push4(s, FromLE32(arg[..4]))
    // pop 16 / 32 bits into the temp register
    case 0x12 =>
      var (v, s1) :- Pop2(s);
      Some(s1.(p := s1.p.(temp32 := v)))
    case 0x13 =>
      var (v, s1) :- Pop4(s);
      Some(s1.(p := s1.p.(temp32 := v)))
    // push the sign-extended byte / word / double word / yy bytes at bp+xx
    case 0x3E =>
      var b :- Read(s, Slot(s, arg[0]), 1);
      Push2(s, Wrap16(S8(b[0])))
    case 0x3F =>
      var v :- Read2(s, Slot(s, arg[0]));
      Push2(s, v)
    case 0x40 =>
      var v :- Read4(s, Slot(s, arg[0]));
      Push4(s, v)
    case 0x45 =>
      var bytes :- Read(s, Slot(s, arg[0]), arg[1]);
      PushN(s, bytes)
    // push the process id
    case 0x59 => Push2(s, s.p.pid)
    // init: reserve the locals, zeroed
    case 0x5A => if arg[0] == 0 then Some(s) else Push0(s, InitSize(arg[0]))
    // debug line numbers
    case 0x5B => Some(s)
    case 0x5C => Some(s)
    // push the low byte / low word / all of the temp register
    case 0x5D => Push2(s, s.p.temp32 % 0x100)
    case 0x5E => Push2(s, s.p.temp32 % 0x10000)
    case 0x5F => Push4(s, s.p.temp32)
    // push the result register
    case 0x6D => Push4(s, s.p.result)
    // subtract a signed byte from sp (the same as popping that many bytes)
    case 0x6E => Some(MoveSP(s, -S8(arg[0])))
    // add a byte to the loop script being built on the stack
    case 0x74 => PushN(s, [arg[0]])
    // set info: item number, then process type
    case 0x77 =>
      var (item, s1) :- Pop2(s);
      var (kind, s2) :- Pop2(s1);
      Some(s2.(p := s2.p.(itemNum := item, procType := kind)))
  }

  /** 0x0A xx pushes one word whose signed value is the immediate byte's. */
  lemma PushByteResult(s: Slice, x: u8)
    requires Stacks.InBuffer(s.p.stack, SP(s) - 2, 2)
    ensures ExecFrame(s, 0x0A, [x]).Some?
    ensures var t := ExecFrame(s, 0x0A, [x]).value;
      SP(t) == SP(s) - 2 && Read2(t, SP(t)).Some? && S16(Read2(t, SP(t)).value) == S8(x)
  {
    Push2Reads(s, Wrap16(S8(x)));
    SignedOfWrap16(S8(x));
  }

  /** 0x0B and 0x0C push their two or four operand bytes as they stand. */
  lemma PushImmediateResult(s: Slice, op: u8, arg: seq<u8>)
    requires (op == 0x0B && |arg| == 2) || (op == 0x0C && |arg| == 4)
    requires Stacks.InBuffer(s.p.stack, SP(s) - |arg|, |arg|)
    ensures ExecFrame(s, op, arg).Some?
    ensures var t := ExecFrame(s, op, arg).value;
      SP(t) == SP(s) - |arg| && Read(t, SP(t), |arg|) == Some(arg)
  {
    assert arg[..|arg|] == arg;
    if op == 0x0B {
      FromLE16RoundTrip(arg);
    } else {
      FromLE32RoundTrip(arg);
    }
  }

  /** 0x3E xx pushes one word whose signed value is that of the byte at
      bp+xx. */
  lemma PushLocalByteResult(s: Slice, x: u8)
    requires Read(s, Slot(s, x), 1).Some? && Stacks.InBuffer(s.p.stack, SP(s) - 2, 2)
    ensures ExecFrame(s, 0x3E, [x]).Some?
    ensures var t := ExecFrame(s, 0x3E, [x]).value;
      SP(t) == SP(s) - 2 && Read2(t, SP(t)).Some?
      && S16(Read2(t, SP(t)).value) == S8(Read(s, Slot(s, x), 1).value[0])
  {
    var b := Read(s, Slot(s, x), 1).value;
    assert ExecFrame(s, 0x3E, [x]) == Push2(s, Wrap16(S8(b[0])));
    Push2Reads(s, Wrap16(S8(b[0])));
    SignedOfWrap16(S8(b[0]));
  }

  /** 0x3F xx and 0x40 xx push a copy of the two or four bytes at bp+xx. */
  lemma PushLocalResult(s: Slice, op: u8, x: u8)
    requires op == 0x3F || op == 0x40
    requires var n := if op == 0x3F then 2 else 4;
      Read(s, Slot(s, x), n).Some? && Stacks.InBuffer(s.p.stack, SP(s) - n, n)
    ensures ExecFrame(s, op, [x]).Some?
    ensures var n := if op == 0x3F then 2 else 4;
      var t := ExecFrame(s, op, [x]).value;
      SP(t) == SP(s) - n && Read(t, SP(t), n) == Read(s, Slot(s, x), n)
  {
    var n := if op == 0x3F then 2 else 4;
    var bytes := Read(s, Slot(s, x), n).value;
    if op == 0x3F {
      FromLE16RoundTrip(bytes);
    } else {
      FromLE32RoundTrip(bytes);
    }
  }

  /** 0x01 xx, 0x02 xx and 0x03 xx yy pop two, four or yy bytes and store
      them, as they were on the stack, in bp+xx. */
  lemma StoreLocalResult(s: Slice, op: u8, arg: seq<u8>)
    requires (op == 0x01 && |arg| == 1) || (op == 0x02 && |arg| == 1) || (op == 0x03 && |arg| == 2)
    requires var n := if op == 0x01 then 2 else if op == 0x02 then 4 else arg[1];
      Stacks.InBuffer(s.p.stack, SP(s), n) && Stacks.InBuffer(s.p.stack, Slot(s, arg[0]), n)
    ensures ExecFrame(s, op, arg).Some?
    ensures var n := if op == 0x01 then 2 else if op == 0x02 then 4 else arg[1];
      var t := ExecFrame(s, op, arg).value;
      SP(t) == SP(s) + n && Read(t, Slot(s, arg[0]), n) == Read(s, SP(s), n)
  {
    var n := if op == 0x01 then 2 else if op == 0x02 then 4 else arg[1];
    var bytes := Read(s, SP(s), n).value;
    var s1 := MoveSP(s, n);
    if op == 0x01 {
      FromLE16RoundTrip(bytes);
      WriteReads(s1, Slot(s1, arg[0]), LE16(FromLE16(bytes)), 0, 0);
    } else if op == 0x02 {
      FromLE32RoundTrip(bytes);
      WriteReads(s1, Slot(s1, arg[0]), LE32(FromLE32(bytes)), 0, 0);
    } else {
      WriteReads(s1, Slot(s1, arg[0]), bytes, 0, 0);
    }
  }
}
