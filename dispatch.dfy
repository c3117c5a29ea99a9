/** The fetch/decode/execute loop of execProcess: one instruction at a
    time, the instruction pointer written back after each one that did not
    fail, and the loop ending on a cede, an error or termination. */
module Dispatch {
  import opened Words
  import opened Wrappers
  import opened Heap
  import opened State
  import opened Opcodes
  import opened Arith
  import opened Frame
  import opened HeapOps
  import opened PointerOps
  import opened Control
  import opened Loops

  /** What every instruction keeps: an instruction that reports an error
      has not moved the instruction pointer, every stored list keeps an
      allocated id, the code position stays inside the code, the code is
      that of some class, and the process id is unchanged. */
  predicate StepFrame(env: Env, s: Slice, t: Slice)
  {
    (t.error && !s.error ==> t.p.ip == s.p.ip)
    && (ListsTracked(s.h) ==> ListsTracked(t.h))
    && (s.pos <= |s.code| ==> t.pos <= |t.code|)
    && (t.code == s.code || t.code in env.classes.Values)
    && t.p.pid == s.p.pid
  }

  /** One instruction with a fixed number of operand bytes. An opcode the
      source does not handle is skipped. */
  function Execute(env: Env, s: Slice, op: u8, arg: seq<u8>): (r: Option<Slice>)
    requires |arg| == Operands(op)
    ensures r.Some? ==> StepFrame(env, s, r.value)
  {
    if IsArith(op) then ExecArith(env.variant, s, op)
    else if IsFrameOp(op) then ExecFrame(s, op, arg)
    else if IsHeapOp(op) then ExecHeap(s, op, arg)
    else if IsPointerOp(op) then ExecPointer(s, op, arg)
    else if IsControlOp(op) then ExecControl(env, s, op, arg)
    else if IsLoopOp(op) then ExecLoop(env, s, op, arg)
    else Some(s)
  }

  /** The opcode at pos, its fixed operand bytes (none for 0x0D, whose
      text Step reads) and the position after them. */
  function Fetch(code: seq<u8>, pos: nat): (r: (u8, seq<u8>, nat))
    ensures |r.1| == Operands(r.0)
    ensures pos <= |code| ==> r.2 <= |code|
    ensures pos < |code| ==> r.0 == code[pos]
    ensures pos < |code| && pos + 1 + Operands(code[pos]) <= |code| ==>
      r.1 == code[pos + 1..pos + 1 + Operands(code[pos])] && r.2 == pos + 1 + Operands(code[pos])
  {
    var (opByte, pos1) := ReadCode(code, pos, 1);
    assert pos < |code| ==> code[pos..pos + 1] == [code[pos]];
    var (arg, pos2) := ReadCode(code, pos1, Operands(opByte[0]));
    (opByte[0], arg, pos2)
  }

  /** 0x0D xxxx: the two-byte length, that many bytes of text and the
      terminator follow the opcode in the code; the text is pushed as a new
      string. */
  function StepLiteral(s: Slice): (r: Slice)
    ensures r.code == s.code && r.p.ip == s.p.ip && r.p.pid == s.p.pid
    ensures ListsTracked(s.h) ==> ListsTracked(r.h)
    ensures s.pos <= |s.code| ==> r.pos <= |r.code|
  {
    var (lenBytes, pos2) := ReadCode(s.code, s.pos, 2);
    var (text, pos3) := ReadCode(s.code, pos2, FromLE16(lenBytes));
    var (terminator, pos4) := ReadCode(s.code, pos3, 1);
    var s1 := s.(pos := pos4);
    match PushString(s1, text, terminator[0])
    case None => Fail(s1)
    case Some(t) => t
  }

  /** Fetch, decode and execute the instruction at the code position. A
      fault (an access outside the stack, a missing class, a failed
      assertion) is an error that leaves the state as it was after
      decoding. */
  function Step(env: Env, s: Slice): (r: Slice)
    ensures StepFrame(env, s, r)
  {
    var (op, arg, pos1) := Fetch(s.code, s.pos);
    if op == 0x0D then StepLiteral(s.(pos := pos1))
    else
      var s1 := s.(pos := pos1);
      match Execute(env, s1, op, arg)
      case None => Fail(s1)
      case Some(t) => t
  }

  /** The loop goes on while the slice has not ceded, failed or ended. */
  predicate Running(s: Slice)
  {
    !s.cede && !s.error && !s.p.terminated
  }

  /** One iteration of the loop: an instruction, the write-back of the
      instruction pointer (truncated to 16 bits) unless it failed, and a
      cede if the process is now suspended and not running on to a cede. */
  function Cycle(env: Env, s: Slice): (r: Slice)
  {
    var s1 := Step(env, s);
    var s2 := if s1.error then s1 else s1.(p := s1.p.(ip := Wrap16(s1.pos)));
    if s2.p.suspended && !s2.goUntilCede then s2.(cede := true) else s2
  }

  /** Up to fuel applications of step, stopping as soon as the slice is no
      longer running. */
  function Iterate(step: Slice -> Slice, s: Slice, fuel: nat): (r: Slice)
    decreases fuel
  {
    if fuel == 0 || !Running(s) then s else Iterate(step, step(s), fuel - 1)
  }

  /** The cycle of the dispatcher loop as a value. */
  function CycleOf(env: Env): Slice -> Slice
  {
    s => Cycle(env, s)
  }

  /** Up to fuel iterations of the dispatcher loop. */
  function Run(env: Env, s: Slice, fuel: nat): (r: Slice)
  {
    Iterate(CycleOf(env), s, fuel)
  }

  /** A property every running slice passes on to the next one holds all
      along the loop. */
  lemma {:induction false} IterateKeeps(step: Slice -> Slice, inv: Slice -> bool, s: Slice, fuel: nat)
    requires inv(s)
    requires forall x :: inv(x) && Running(x) ==> inv(step(x))
    ensures inv(Iterate(step, s, fuel))
    decreases fuel
  {
    if fuel > 0 && Running(s) {
      IterateKeeps(step, inv, step(s), fuel - 1);
    }
  }

  /** After the loop: a slice that failed asks for its process to be
      terminated. */
  function Finish(s: Slice): (r: Slice)
    ensures r.p.terminated <==> s.p.terminated || s.error
    ensures r == s.(p := r.p) && r.p == s.p.(terminated := r.p.terminated)
  {
    if s.error then s.(p := s.p.(terminated := true)) else s
  }

  /** The slice a process starts from: its class's code, positioned at its
      ip, with the three loop flags clear. A missing class or an ip past the
      end of the code is an error before any instruction runs. */
  function Begin(env: Env, h: Heaps, g: Globals.GlobalStore, k: Sched, p: Proc): (r: Slice)
    ensures !r.error ==> p.classId in env.classes && r.code == env.classes[p.classId]
    ensures !r.error ==> r.pos == p.ip && r.pos <= |r.code|
    ensures r.h == h && r.g == g && r.k == k && r.p == p && !r.cede && !r.goUntilCede
  {
    var code := if p.classId in env.classes then env.classes[p.classId] else [];
    var ok := p.classId in env.classes && p.ip <= |code|;
    Slice(h, g, k, p, code, if ok then p.ip else 0, false, !ok, false)
  }

  /** execProcess as a function: begin, run the loop, finish. */
  function ExecSlice(env: Env, h: Heaps, g: Globals.GlobalStore, k: Sched, p: Proc, fuel: nat): Slice
  {
    Finish(Run(env, Begin(env, h, g, k, p), fuel))
  }

  /** A cycle keeps what every instruction keeps; when the instruction
      failed the instruction pointer is the one it started from, and
      otherwise it is the new code position truncated to 16 bits. */
  lemma CycleWriteBack(env: Env, s: Slice)
    requires !s.error
    ensures Cycle(env, s).error ==> Cycle(env, s).p.ip == s.p.ip
    ensures !Cycle(env, s).error ==> Cycle(env, s).p.ip == Wrap16(Cycle(env, s).pos)
    ensures ListsTracked(s.h) ==> ListsTracked(Cycle(env, s).h)
    ensures s.pos <= |s.code| ==> Cycle(env, s).pos <= |Cycle(env, s).code|
    ensures Cycle(env, s).p.pid == s.p.pid
    ensures Cycle(env, s).code == s.code || Cycle(env, s).code in env.classes.Values
  {
  }

  /** Every list in the heap keeps an allocated id for the whole loop. */
  lemma RunKeepsTracked(env: Env, s: Slice, fuel: nat)
    requires ListsTracked(s.h)
    ensures ListsTracked(Run(env, s, fuel).h)
  {
    var inv := (x: Slice) => ListsTracked(x.h);
    forall x | inv(x) && Running(x)
      ensures inv(CycleOf(env)(x))
    {
      CycleWriteBack(env, x);
    }
    IterateKeeps(CycleOf(env), inv, s, fuel);
  }

  /** What one cycle keeps of the position invariant: the code stays
      that of some class and inside it, and when the cycle did not fail the
      instruction pointer is the code position. */
  lemma CyclePosition(env: Env, s: Slice)
    requires !s.error && s.pos <= |s.code| && (s.code == [] || s.code in env.classes.Values)
    requires forall c :: c in env.classes.Values ==> |c| < 0x10000
    ensures Cycle(env, s).pos <= |Cycle(env, s).code|
    ensures Cycle(env, s).code == [] || Cycle(env, s).code in env.classes.Values
    ensures !Cycle(env, s).error ==> Cycle(env, s).p.ip == Cycle(env, s).pos
  {
    CycleWriteBack(env, s);
    ShortCode(env, Cycle(env, s));
  }

  /** A position inside the code of a class shorter than 64K survives
      truncation to 16 bits. */
  lemma ShortCode(env: Env, t: Slice)
    requires t.pos <= |t.code| && (t.code == [] || t.code in env.classes.Values)
    requires forall c :: c in env.classes.Values ==> |c| < 0x10000
    ensures Wrap16(t.pos) == t.pos
  {
  }

  /** Where the code position may be: inside the code of some class, with
      the instruction pointer equal to it unless the slice failed. */
  predicate Positioned(env: Env, x: Slice)
  {
    x.pos <= |x.code| && (x.code == [] || x.code in env.classes.Values) && (!x.error ==> x.p.ip == x.pos)
  }

  /** The code position never leaves the code, and when every class is
      shorter than 64K the written-back instruction pointer is exactly the
      code position. */
  lemma RunKeepsPosition(env: Env, s: Slice, fuel: nat)
    requires s.pos <= |s.code| && (s.code == [] || s.code in env.classes.Values)
    requires forall c :: c in env.classes.Values ==> |c| < 0x10000
    requires !s.error ==> s.p.ip == s.pos
    ensures Run(env, s, fuel).pos <= |Run(env, s, fuel).code|
    ensures !Run(env, s, fuel).error ==> Run(env, s, fuel).p.ip == Run(env, s, fuel).pos
  {
    var inv := (x: Slice) => Positioned(env, x);
    forall x | inv(x) && Running(x)
      ensures inv(CycleOf(env)(x))
    {
      CyclePosition(env, x);
    }
    IterateKeeps(CycleOf(env), inv, s, fuel);
  }

  /** A process whose loop ends in an error is terminated. */
  lemma ErrorTerminates(env: Env, h: Heaps, g: Globals.GlobalStore, k: Sched, p: Proc, fuel: nat)
    ensures Run(env, Begin(env, h, g, k, p), fuel).error ==> ExecSlice(env, h, g, k, p, fuel).p.terminated
    ensures !Run(env, Begin(env, h, g, k, p), fuel).error ==>
      ExecSlice(env, h, g, k, p, fuel) == Run(env, Begin(env, h, g, k, p), fuel)
  {
  }
}
