/** The state one run of the dispatcher works on: the process being run, the
    shared heaps and global store, what the scheduler knows about other
    processes, and the code stream with its position. The world, the
    scheduler and the intrinsic functions appear only as the oracles in
    `Env`. */
module State {
  import opened Words
  import opened Wrappers
  import opened Globals
  import opened Stacks
  import opened Lists
  import opened Heap

  /** A usecode process. `terminated` stands for both the terminated and the
      terminate-deferred flag; `freeMe` is the free-on-terminate list of
      (handle, kind) pairs. */
  datatype Proc = Proc(
    pid: u16,
    itemNum: u16,
    procType: u16,
    classId: u16,
    ip: u16,
    bp: u16,
    stack: UCStack,
    temp32: u32,
    result: u32,
    suspended: bool,
    terminated: bool,
    freeMe: seq<(u16, u8)>)

  /** A process the spawn opcodes hand to the scheduler. */
  datatype Spawn = Spawn(classId: u16, offset: u16, thisPtr: u32, thisSize: nat, args: seq<u8>)

  /** The scheduler as the dispatcher sees it: the stacks of the other live
      usecode processes, the ids of all live processes, the waits requested
      by `implies` (waiter, awaited) and the processes spawned so far. */
  datatype Sched = Sched(
    stacks: map<u16, UCStack>,
    live: set<u16>,
    waits: seq<(u16, u16)>,
    spawned: seq<Spawn>)

  /** Everything the dispatcher consults but does not change: the game
      variant, the code of each class (from its base offset on), the Crusader
      event table, the intrinsic functions, the live world items, the result
      of a world search (kind, two operands, loopscript), the number of
      processes with a given (item, type), and the id the scheduler gives the
      n-th spawned process. */
  datatype Env = Env(
    variant: Variant,
    classes: map<u16, seq<u8>>,
    classEvent: (u16, u16) -> u16,
    intrinsics: map<u16, seq<u8> -> u32>,
    items: set<u16>,
    search: (nat, u16, u16, seq<u8>) -> seq<u16>,
    processCount: (u16, u16) -> nat,
    newPid: nat -> u16)

  /** The dispatcher's working state: heaps, globals, scheduler view, the
      process, the current code stream and position, and the three loop
      flags. */
  datatype Slice = Slice(
    h: Heaps,
    g: GlobalStore,
    k: Sched,
    p: Proc,
    code: seq<u8>,
    pos: nat,
    cede: bool,
    error: bool,
    goUntilCede: bool)

  /** `n` bytes of code from `pos`; bytes past the end read as 0 and the
      position stops at the end, as a memory stream does. */
  function ReadCode(code: seq<u8>, pos: nat, n: nat): (r: (seq<u8>, nat))
    ensures |r.0| == n
    ensures r.1 == Min(pos + n, |code|) || (pos > |code| && r.1 == pos)
    ensures forall i :: 0 <= i < n && pos + i < |code| ==> r.0[i] == code[pos + i]
    ensures forall i :: 0 <= i < n && pos + i >= |code| ==> r.0[i] == 0
    ensures pos + n <= |code| ==> r == (code[pos..pos + n], pos + n)
  {
    var bytes := seq(n, i requires 0 <= i < n => if pos + i < |code| then code[pos + i] else 0);
    assert pos + n <= |code| ==> bytes == code[pos..pos + n];
    (bytes, if pos > |code| then pos else Min(pos + n, |code|))
  }

  /** seek: a position past the end of the code is a fault. */
  function Seek(s: Slice, target: nat): (r: Option<Slice>)
    ensures r.Some? <==> target <= |s.code|
    ensures r.Some? ==> r.value == s.(pos := target)
  {
    if target <= |s.code| then Some(s.(pos := target)) else None
  }

  /** A relative jump: the target is computed in 16 bits. */
  function Jump(s: Slice, offset: u16): Option<Slice>
  {
    Seek(s, Wrap16(s.pos + S16(offset)))
  }

  function WithStack(s: Slice, st: UCStack): (r: Slice)
    ensures r.p.stack == st
  {
    s.(p := s.p.(stack := st))
  }

  function SP(s: Slice): int
  {
    s.p.stack.sp
  }

  /** The frame slot bp + x. */
  function Local(s: Slice, x: int): int
  {
    s.p.bp + x
  }

  function Pop2(s: Slice): (r: Option<(u16, Slice)>)
    ensures r.Some? ==> r.value.1 == WithStack(s, AddSP(s.p.stack, 2))
  {
    var (v, st) :- Stacks.Pop2(s.p.stack);
    Some((v, WithStack(s, st)))
  }

  function Pop4(s: Slice): (r: Option<(u32, Slice)>)
    ensures r.Some? ==> r.value.1 == WithStack(s, AddSP(s.p.stack, 4))
  {
    var (v, st) :- Stacks.Pop4(s.p.stack);
    Some((v, WithStack(s, st)))
  }

  function PopN(s: Slice, n: nat): (r: Option<(seq<u8>, Slice)>)
    ensures r.Some? ==> r.value.1 == WithStack(s, AddSP(s.p.stack, n))
  {
    var (bytes, st) :- Pop(s.p.stack, n);
    Some((bytes, WithStack(s, st)))
  }

  function Push2(s: Slice, v: u16): (r: Option<Slice>)
    ensures r.Some? <==> Stacks.Push2(s.p.stack, v).Some?
    ensures r.Some? ==> r.value == WithStack(s, Stacks.Push2(s.p.stack, v).value)
  {
    var st :- Stacks.Push2(s.p.stack, v);
    Some(WithStack(s, st))
  }

  function Push4(s: Slice, v: u32): (r: Option<Slice>)
    ensures r.Some? <==> Stacks.Push4(s.p.stack, v).Some?
    ensures r.Some? ==> r.value == WithStack(s, Stacks.Push4(s.p.stack, v).value)
  {
    var st :- Stacks.Push4(s.p.stack, v);
    Some(WithStack(s, st))
  }

  function PushN(s: Slice, bytes: seq<u8>): (r: Option<Slice>)
    ensures r.Some? <==> Push(s.p.stack, bytes).Some?
    ensures r.Some? ==> r.value == WithStack(s, Push(s.p.stack, bytes).value)
  {
    var st :- Push(s.p.stack, bytes);
    Some(WithStack(s, st))
  }

  function Push0(s: Slice, n: nat): (r: Option<Slice>)
    ensures r.Some? <==> Stacks.Push0(s.p.stack, n).Some?
    ensures r.Some? ==> r.value == WithStack(s, Stacks.Push0(s.p.stack, n).value)
  {
    var st :- Stacks.Push0(s.p.stack, n);
    Some(WithStack(s, st))
  }

  function MoveSP(s: Slice, d: int): Slice
  {
    WithStack(s, AddSP(s.p.stack, d))
  }

  function Read(s: Slice, off: int, n: nat): Option<seq<u8>>
  {
    Access(s.p.stack, off, n)
  }

  function Read2(s: Slice, off: int): Option<u16>
  {
    Access2(s.p.stack, off)
  }

  function Read4(s: Slice, off: int): Option<u32>
  {
    Access4(s.p.stack, off)
  }

  function Write(s: Slice, off: int, bytes: seq<u8>): (r: Option<Slice>)
    ensures r.Some? <==> Assign(s.p.stack, off, bytes).Some?
    ensures r.Some? ==> r.value == WithStack(s, Assign(s.p.stack, off, bytes).value)
  {
    var st :- Assign(s.p.stack, off, bytes);
    Some(WithStack(s, st))
  }

  function Write2(s: Slice, off: int, v: u16): Option<Slice>
  {
    Write(s, off, LE16(v))
  }

  /** The push of a 0/1 truth value as a 16-bit word. */
  function PushBool(s: Slice, b: bool): Option<Slice>
  {
    Push2(s, if b then 1 else 0)
  }

  function Fail(s: Slice): Slice
  {
    s.(error := true)
  }

  function WithHeaps(s: Slice, h: Heaps): Slice
  {
    s.(h := h)
  }

  /** The stack of usecode process pid, the running one included. */
  function StackOf(s: Slice, pid: u16): Option<UCStack>
  {
    if pid == s.p.pid then Some(s.p.stack)
    else if pid in s.k.stacks then Some(s.k.stacks[pid])
    else None
  }

  /** Replace the stack of usecode process pid (one StackOf found). */
  function SetStackOf(s: Slice, pid: u16, st: UCStack): Slice
  {
    if pid == s.p.pid then WithStack(s, st)
    else s.(k := s.k.(stacks := s.k.stacks[pid := st]))
  }

  /** Whether the scheduler knows a process with this id. */
  predicate ProcessExists(s: Slice, pid: u16)
  {
    pid == s.p.pid || pid in s.k.live
  }

  /** Popping a word reads it from the top of the stack and moves the
      pointer past it. */
  lemma Pop2Reads(s: Slice, a: u16)
    requires Read2(s, SP(s)) == Some(a)
    ensures Pop2(s) == Some((a, WithStack(s, AddSP(s.p.stack, 2))))
  {
  }

  lemma Pop4Reads(s: Slice, a: u32)
    requires Read4(s, SP(s)) == Some(a)
    ensures Pop4(s) == Some((a, WithStack(s, AddSP(s.p.stack, 4))))
  {
  }

  /** The two pops of a binary opcode: a from the top, then b under it. */
  lemma PopTwo2(s: Slice, a: u16, b: u16)
    requires Read2(s, SP(s)) == Some(a) && Read2(s, SP(s) + 2) == Some(b)
    ensures Pop2(s) == Some((a, MoveSP(s, 2)))
    ensures Pop2(MoveSP(s, 2)) == Some((b, MoveSP(s, 4)))
  {
    Pop2Reads(s, a);
    Pop2Reads(MoveSP(s, 2), b);
  }

  lemma PopTwo4(s: Slice, a: u32, b: u32)
    requires Read4(s, SP(s)) == Some(a) && Read4(s, SP(s) + 4) == Some(b)
    ensures Pop4(s) == Some((a, MoveSP(s, 4)))
    ensures Pop4(MoveSP(s, 4)) == Some((b, MoveSP(s, 8)))
  {
    Pop4Reads(s, a);
    Pop4Reads(MoveSP(s, 4), b);
  }

  /** A pushed word is read back from the new top, and nothing but the
      stack changes. */
  lemma Push2Reads(s: Slice, v: u16)
    requires InBuffer(s.p.stack, SP(s) - 2, 2)
    ensures Push2(s, v).Some?
    ensures var t := Push2(s, v).value;
      t == WithStack(s, t.p.stack) && SP(t) == SP(s) - 2 && Read2(t, SP(t)) == Some(v)
  {
    var pushed := Stacks.Push2(s.p.stack, v).value;
    assert Access(pushed, pushed.sp, 2) == Some(LE16(v));
    LE16RoundTrip(v);
  }

  lemma Push4Reads(s: Slice, v: u32)
    requires InBuffer(s.p.stack, SP(s) - 4, 4)
    ensures Push4(s, v).Some?
    ensures var t := Push4(s, v).value;
      t == WithStack(s, t.p.stack) && SP(t) == SP(s) - 4 && Read4(t, SP(t)) == Some(v)
  {
    var pushed := Stacks.Push4(s.p.stack, v).value;
    assert Access(pushed, pushed.sp, 4) == Some(LE32(v));
    LE32RoundTrip(v);
  }

  /** A push leaves every word at or above the old top as it was. */
  lemma Push2Keeps(s: Slice, v: u16, off: int)
    requires Push2(s, v).Some? && off >= SP(s)
    ensures Read2(Push2(s, v).value, off) == Read2(s, off)
  {
    var lowered := AddSP(s.p.stack, -2);
    AccessAfterAssign(lowered, lowered.sp, LE16(v), off, 2);
  }

  /** A write is read back, and a read of bytes it does not cover sees
      what was there before. */
  lemma WriteReads(s: Slice, off: int, bytes: seq<u8>, off2: int, n2: nat)
    requires Write(s, off, bytes).Some?
    ensures var t := Write(s, off, bytes).value;
      Read(t, off, |bytes|) == Some(bytes)
      && (off2 + n2 <= off || off + |bytes| <= off2 ==> Read(t, off2, n2) == Read(s, off2, n2))
  {
    AccessAfterAssign(s.p.stack, off, bytes, off2, n2);
  }

  lemma Write2Reads(s: Slice, off: int, v: u16)
    requires Write2(s, off, v).Some?
    ensures Read2(Write2(s, off, v).value, off) == Some(v)
  {
    Access2AfterAssign2(s.p.stack, off, v);
  }
}
